/**
 * Go type expressions, the generator's printer for them, and a parser that undoes it.  As in Go, a
 * text is a sequence of bytes, one char a byte.
 */
module GoTypes {
  import opened Options

  /** The nodes of go/ast the generator looks at; an ArrayType without length is a Slice here. */
  datatype Expr =
    | Ident(name: string)
    | Selector(x: Expr, sel: string)
    | Star(x: Expr)
    | Slice(elt: Expr)
    | Array(len: Expr, elt: Expr)
    | Map(key: Expr, value: Expr)
    | BasicLit(text: string)
    | Interface(limited: bool)    // one that admits every type is the type any
    | Func
    | Chan
    | OtherExpr

  function TypeString(e: Expr): string
  {
    match e
    case Ident(name) => name
    case Selector(x, sel) => TypeString(x) + "." + sel
    case Star(x) => "*" + TypeString(x)
    case Slice(elt) => "[]" + TypeString(elt)
    case Array(len, elt) => "[" + TypeString(len) + "]" + TypeString(elt)
    case Map(key, value) => "map[" + TypeString(key) + "]" + TypeString(value)
    case BasicLit(text) => text
    case _ => "any"
  }

  /** A qualified name, and a map to slices of pointers to it. */
  lemma PrintedForms(time: Expr)
    requires time == Selector(Ident("time"), "Time")
    ensures TypeString(time) == "time.Time"
    ensures TypeString(Map(Ident("string"), Slice(Star(time)))) == "map[string][]*time.Time"
    ensures TypeString(Array(BasicLit("3"), Interface(true))) == "[3]any"
  {
    assert TypeString(Star(time)) == "*time.Time";
    assert TypeString(Slice(Star(time))) == "[]*time.Time";
  }

  // ---- the types the printer keeps apart -----------------------------------------------

  predicate IsDigit(c: char) { '0' <= c <= '9' }

  /** ASCII letters, the underscore, and the bytes of all other characters. */
  predicate IsLetter(c: char) { 'a' <= c <= 'z' || 'A' <= c <= 'Z' || c == '_' || c >= '\U{0080}' }

  predicate IsWordChar(c: char) { IsLetter(c) || IsDigit(c) }

  predicate IsWord(s: string) { s != [] && forall i :: 0 <= i < |s| ==> IsWordChar(s[i]) }

  /** An identifier; `map` is a keyword. */
  predicate IsIdent(s: string) { IsWord(s) && IsLetter(s[0]) && s != "map" }

  predicate IsNumberChar(c: char) { IsWordChar(c) || c == '.' || c == '+' || c == '-' }

  predicate IsHex(s: string) { |s| >= 2 && s[0] == '0' && (s[1] == 'x' || s[1] == 'X') }

  /** The mark that lets a sign follow inside a number. */
  predicate IsExponent(c: char, hex: bool) { if hex then c == 'p' || c == 'P' else c == 'e' || c == 'E' }

  /** A number token: it starts with a digit, or a dot and a digit, and only an exponent has a sign. */
  predicate IsNumberLit(s: string)
  {
    && s != [] && (IsDigit(s[0]) || (|s| >= 2 && s[0] == '.' && IsDigit(s[1])))
    && (forall i :: 0 <= i < |s| ==> IsNumberChar(s[i]))
    && (forall i | 0 < i < |s| && (s[i] == '+' || s[i] == '-') :: IsExponent(s[i - 1], IsHex(s)))
  }

  /** The first quote from position i on. */
  function QuoteFrom(s: string, i: nat): (q: nat)
    requires i <= |s|
    ensures i <= q <= |s| && (q < |s| ==> s[q] == '\'') && forall k :: i <= k < q ==> s[k] != '\''
    decreases |s| - i
  {
    if i == |s| || s[i] == '\'' then i else QuoteFrom(s, i + 1)
  }

  /** Where the quote that ends a rune token can stand first: after one character, or an escaped one. */
  function RuneStart(s: string): nat { if |s| >= 2 && s[1] == '\\' then 3 else 2 }

  /** A rune token. */
  predicate IsRuneLit(s: string)
  {
    |s| > RuneStart(s) && s[0] == '\'' && s[1] != '\'' && QuoteFrom(s, RuneStart(s)) == |s| - 1
  }

  /** A literal token that can stand for an array length. */
  predicate IsLengthLit(s: string) { IsNumberLit(s) || IsRuneLit(s) }

  predicate IsName(e: Expr)
  {
    match e
    case Ident(name) => IsIdent(name)
    case Selector(x, sel) => x.Ident? && IsIdent(x.name) && IsIdent(sel)
    case _ => false
  }

  predicate IsLength(e: Expr) { IsName(e) || (e.BasicLit? && IsLengthLit(e.text)) }

  predicate WellFormed(e: Expr)
  {
    match e
    case Star(x) => WellFormed(x)
    case Slice(elt) => WellFormed(elt)
    case Array(len, elt) => IsLength(len) && WellFormed(elt)
    case Map(key, value) => WellFormed(key) && WellFormed(value)
    case _ => IsName(e)
  }

  // ---- the parser ----------------------------------------------------------------------

  datatype Parsed = Parsed(e: Expr, rest: string)

  /** The length of the longest word at the front. */
  function Span(s: string): (n: nat)
    ensures n <= |s| && forall i :: 0 <= i < n ==> IsWordChar(s[i])
    ensures n < |s| ==> !IsWordChar(s[n])
  {
    if s == [] || !IsWordChar(s[0]) then 0 else 1 + Span(s[1..])
  }

  /** A name: an identifier, qualified when a dot follows. */
  function ParseName(s: string): (r: Option<Parsed>)
    ensures r.Some? ==> |r.value.rest| < |s|
  {
    var n := Span(s);
    if !IsIdent(s[..n]) then None
    else if n < |s| && s[n] == '.' then
      var m := Span(s[n + 1..]);
      var sel := s[n + 1..][..m];
      if IsIdent(sel) then Some(Parsed(Selector(Ident(s[..n]), sel), s[n + 1..][m..])) else None
    else Some(Parsed(Ident(s[..n]), s[n..]))
  }

  /** The length of the longest run of number characters at the front. */
  function NumberSpan(s: string): (n: nat)
    ensures n <= |s| && forall i :: 0 <= i < n ==> IsNumberChar(s[i])
    ensures n < |s| ==> !IsNumberChar(s[n])
  {
    if s == [] || !IsNumberChar(s[0]) then 0 else 1 + NumberSpan(s[1..])
  }

  /** The length of the literal token at the front, 0 when there is none. */
  function LiteralSpan(s: string): (n: nat)
    ensures n <= |s| && (n > 0 ==> IsLengthLit(s[..n]))
  {
    if s != [] && s[0] == '\'' then
      var n := if RuneStart(s) < |s| then QuoteFrom(s, RuneStart(s)) + 1 else |s| + 1;
      if n <= |s| && IsRuneLit(s[..n]) then n else 0
    else if IsNumberLit(s[..NumberSpan(s)]) then NumberSpan(s) else 0
  }

  function ParseLength(s: string): (r: Option<Parsed>)
    ensures r.Some? ==> |r.value.rest| < |s|
  {
    var n := LiteralSpan(s);
    if n > 0 then Some(Parsed(BasicLit(s[..n]), s[n..])) else ParseName(s)
  }

  /** What stands after a closing bracket. */
  function AfterBracket(s: string): (r: Option<string>)
    ensures r.Some? ==> s == "]" + r.value
  {
    if s != [] && s[0] == ']' then Some(s[1..]) else None
  }

  function Parse(s: string): (r: Option<Parsed>)
    ensures r.Some? ==> |r.value.rest| < |s|
    decreases |s|
  {
    if s == [] then None
    else if s[0] == '*' then
      match Parse(s[1..])
      case None => None
      case Some(p) => Some(Parsed(Star(p.e), p.rest))
    else if "[]" <= s then
      match Parse(s[2..])
      case None => None
      case Some(p) => Some(Parsed(Slice(p.e), p.rest))
    else if s[0] == '[' then
      match ParseLength(s[1..])
      case None => None
      case Some(len) =>
        match AfterBracket(len.rest)
        case None => None
        case Some(t) =>
          match Parse(t)
          case None => None
          case Some(p) => Some(Parsed(Array(len.e, p.e), p.rest))
    else if "map[" <= s then
      match Parse(s[4..])
      case None => None
      case Some(k) =>
        match AfterBracket(k.rest)
        case None => None
        case Some(t) =>
          match Parse(t)
          case None => None
          case Some(p) => Some(Parsed(Map(k.e, p.e), p.rest))
    else ParseName(s)
  }

  // ---- the parser undoes the printer ---------------------------------------------------

  /** A text that cannot continue a name. */
  predicate Ends(rest: string) { rest == [] || (!IsWordChar(rest[0]) && rest[0] != '.') }

  lemma {:induction false} SpanOfWord(w: string, rest: string)
    requires (forall i :: 0 <= i < |w| ==> IsWordChar(w[i])) && (rest == [] || !IsWordChar(rest[0]))
    ensures Span(w + rest) == |w| && (w + rest)[..|w|] == w && (w + rest)[|w|..] == rest
  {
    if w == [] {
      assert w + rest == rest;
    } else {
      assert (w + rest)[1..] == w[1..] + rest;
      SpanOfWord(w[1..], rest);
    }
  }

  /** A printed name is its first identifier and a tail that starts no longer word. */
  function NameHead(e: Expr): string
    requires IsName(e)
  {
    if e.Ident? then e.name else e.x.name
  }

  function NameTail(e: Expr, rest: string): string
    requires IsName(e)
  {
    if e.Ident? then rest else "." + (e.sel + rest)
  }

  lemma NameSplits(e: Expr, rest: string)
    requires IsName(e) && Ends(rest)
    ensures TypeString(e) + rest == NameHead(e) + NameTail(e, rest) && IsIdent(NameHead(e))
    ensures Span(TypeString(e) + rest) == |NameHead(e)|
    ensures (TypeString(e) + rest)[..|NameHead(e)|] == NameHead(e)
    ensures (TypeString(e) + rest)[|NameHead(e)|..] == NameTail(e, rest)
  {
    if e.Selector? {
      assert TypeString(e) == e.x.name + "." + e.sel;
      assert (e.x.name + "." + e.sel) + rest == e.x.name + ("." + (e.sel + rest));
    }
    SpanOfWord(NameHead(e), NameTail(e, rest));
  }

  lemma NameRoundTrip(e: Expr, rest: string)
    requires IsName(e) && Ends(rest)
    ensures ParseName(TypeString(e) + rest) == Some(Parsed(e, rest))
  {
    NameSplits(e, rest);
    if e.Selector? {
      var s, n := TypeString(e) + rest, |NameHead(e)|;
      assert s[n + 1..] == s[n..][1..] == e.sel + rest;
      SpanOfWord(e.sel, rest);
    }
  }

  lemma NumberSpans(text: string, rest: string)
    requires IsNumberLit(text) && rest != [] && rest[0] == ']'
    ensures LiteralSpan(text + rest) == |text|
  {
    var s := text + rest;
    var n := NumberSpan(s);
    assert s[|text|] == ']' && forall i :: 0 <= i < |text| ==> s[i] == text[i];
    assert n == |text|;
    assert s[..n] == text;
  }

  lemma RuneSpans(text: string, rest: string)
    requires IsRuneLit(text)
    ensures LiteralSpan(text + rest) == |text|
  {
    var s := text + rest;
    assert forall i :: 0 <= i < |text| ==> s[i] == text[i];
    assert RuneStart(s) == RuneStart(text);
    assert QuoteFrom(s, RuneStart(s)) == |text| - 1;
    assert s[..|text|] == text;
  }

  /** A name does not start like a literal. */
  lemma NoLiteral(s: string)
    requires s != [] && IsLetter(s[0])
    ensures LiteralSpan(s) == 0
  {
    assert NumberSpan(s) > 0 ==> s[..NumberSpan(s)][0] == s[0];
  }

  lemma LengthRoundTrip(e: Expr, rest: string)
    requires IsLength(e) && rest != [] && rest[0] == ']'
    ensures ParseLength(TypeString(e) + rest) == Some(Parsed(e, rest))
    ensures TypeString(e) != [] && TypeString(e)[0] != ']'
  {
    var s := TypeString(e) + rest;
    if e.BasicLit? {
      assert s[..|e.text|] == e.text && s[|e.text|..] == rest;
      if IsNumberLit(e.text) {
        NumberSpans(e.text, rest);
      } else {
        RuneSpans(e.text, rest);
      }
      hide LiteralSpan, ParseName;
    } else {
      NameRoundTrip(e, rest);
      NameSplits(e, rest);
      NoLiteral(s);
      hide ParseName, Span, LiteralSpan;
    }
  }

  lemma MapKeyword(s: string)
    requires "map[" <= s
    ensures s[..Span(s)] == "map"
  {
    assert s == "map" + s[3..] && s[3..][0] == '[';
    SpanOfWord("map", s[3..]);
  }

  /** A printed name never reads as the start of another form. */
  lemma NameIsNotMap(e: Expr, rest: string)
    requires IsName(e) && Ends(rest)
    ensures Parse(TypeString(e) + rest) == ParseName(TypeString(e) + rest)
  {
    var s := TypeString(e) + rest;
    NameSplits(e, rest);
    hide ParseName, TypeString, Span;
    assert s[0] == NameHead(e)[0];
    if "map[" <= s {
      MapKeyword(s);
    }
  }

  lemma ParseArray(s: string, len: Expr, tail: string, p: Parsed)
    requires |s| >= 2 && s[0] == '[' && s[1] != ']' && ParseLength(s[1..]) == Some(Parsed(len, tail))
    requires tail != [] && tail[0] == ']' && Parse(tail[1..]) == Some(p)
    ensures Parse(s) == Some(Parsed(Array(len, p.e), p.rest))
  {
    hide ParseLength, ParseName;
  }

  lemma ParseMap(s: string, key: Expr, tail: string, p: Parsed)
    requires "map[" <= s && Parse(s[4..]) == Some(Parsed(key, tail))
    requires tail != [] && tail[0] == ']' && Parse(tail[1..]) == Some(p)
    ensures Parse(s) == Some(Parsed(Map(key, p.e), p.rest))
  {
    hide ParseLength, ParseName;
  }

  /** Regrouping an opening, a key, a closing bracket, a value and what follows. */
  lemma Regroup(open: string, k: string, v: string, rest: string)
    ensures (open + k + "]" + v) + rest == open + (k + ("]" + (v + rest)))
    ensures (open + (k + ("]" + (v + rest))))[|open|..] == k + ("]" + (v + rest))
    ensures ("]" + (v + rest))[1..] == v + rest
  {}

  lemma ArrayRoundTrip(len: Expr, elt: Expr, rest: string)
    requires IsLength(len) && Parse(TypeString(elt) + rest) == Some(Parsed(elt, rest))
    ensures Parse(TypeString(Array(len, elt)) + rest) == Some(Parsed(Array(len, elt), rest))
  {
    var k, v := TypeString(len), TypeString(elt);
    var tail := "]" + (v + rest);
    LengthRoundTrip(len, tail);
    Regroup("[", k, v, rest);
    ParseArray("[" + (k + tail), len, tail, Parsed(elt, rest));
    assert TypeString(Array(len, elt)) == "[" + k + "]" + v;
    hide Parse, ParseLength, TypeString, IsLength;
  }

  lemma MapRoundTrip(key: Expr, value: Expr, rest: string)
    requires Parse(TypeString(value) + rest) == Some(Parsed(value, rest))
    requires var tail := "]" + (TypeString(value) + rest); Parse(TypeString(key) + tail) == Some(Parsed(key, tail))
    ensures Parse(TypeString(Map(key, value)) + rest) == Some(Parsed(Map(key, value), rest))
  {
    var k, v := TypeString(key), TypeString(value);
    var tail := "]" + (v + rest);
    Regroup("map[", k, v, rest);
    ParseMap("map[" + (k + tail), key, tail, Parsed(value, rest));
    assert TypeString(Map(key, value)) == "map[" + k + "]" + v;
    hide Parse, TypeString;
  }

  /** Parsing what the printer wrote gives the type back and leaves the text after it. */
  lemma {:induction false} RoundTrip(e: Expr, rest: string)
    requires WellFormed(e) && Ends(rest)
    ensures Parse(TypeString(e) + rest) == Some(Parsed(e, rest))
    decreases e
  {
    var s := TypeString(e) + rest;
    hide ParseLength, ParseName;
    match e
    case Star(x) =>
      RoundTrip(x, rest);
      assert s == "*" + (TypeString(x) + rest);
      assert s[1..] == TypeString(x) + rest;
    case Slice(elt) =>
      RoundTrip(elt, rest);
      assert s == "[]" + (TypeString(elt) + rest);
      assert s[2..] == TypeString(elt) + rest;
    case Array(len, elt) =>
      RoundTrip(elt, rest);
      ArrayRoundTrip(len, elt, rest);
      hide Parse;
    case Map(key, value) =>
      RoundTrip(value, rest);
      RoundTrip(key, "]" + (TypeString(value) + rest));
      MapRoundTrip(key, value, rest);
      hide Parse;
    case _ =>
      NameRoundTrip(e, rest);
      NameIsNotMap(e, rest);
      hide Parse;
  }

  /** The parse is a well-formed type, printed at the front of the text. */
  ghost predicate Sound(s: string, p: Parsed) { WellFormed(p.e) && s == TypeString(p.e) + p.rest }

  lemma ArrayIsSound(s: string, len: Parsed, p: Parsed)
    requires s != [] && s[0] == '[' && IsLength(len.e) && s[1..] == TypeString(len.e) + len.rest
    requires len.rest != [] && len.rest[0] == ']' && Sound(len.rest[1..], p)
    ensures Sound(s, Parsed(Array(len.e, p.e), p.rest))
  {
    assert TypeString(Array(len.e, p.e)) == "[" + TypeString(len.e) + "]" + TypeString(p.e);
    hide TypeString, IsLength;
    assert s == "[" + s[1..] && len.rest == "]" + len.rest[1..];
    assert s == ("[" + TypeString(len.e) + "]" + TypeString(p.e)) + p.rest;
  }

  lemma MapIsSound(s: string, k: Parsed, p: Parsed)
    requires "map[" <= s && Sound(s[4..], k)
    requires k.rest != [] && k.rest[0] == ']' && Sound(k.rest[1..], p)
    ensures Sound(s, Parsed(Map(k.e, p.e), p.rest))
  {
    assert TypeString(Map(k.e, p.e)) == "map[" + TypeString(k.e) + "]" + TypeString(p.e);
    hide TypeString;
    assert s == "map[" + s[4..] && k.rest == "]" + k.rest[1..];
    assert s == ("map[" + TypeString(k.e) + "]" + TypeString(p.e)) + p.rest;
  }

  lemma PrefixIsSound(s: string, p: Parsed)
    ensures s != [] && s[0] == '*' && Sound(s[1..], p) ==> Sound(s, Parsed(Star(p.e), p.rest))
    ensures "[]" <= s && Sound(s[2..], p) ==> Sound(s, Parsed(Slice(p.e), p.rest))
  {
    if s != [] && s[0] == '*' && Sound(s[1..], p) {
      assert s == "*" + s[1..] == ("*" + TypeString(p.e)) + p.rest;
    }
    if "[]" <= s && Sound(s[2..], p) {
      assert s == "[]" + s[2..] == ("[]" + TypeString(p.e)) + p.rest;
    }
  }

  /** Conversely, whatever the parser accepts is well formed and is what the printer would write. */
  lemma {:induction false} ParseIsSound(s: string)
    requires Parse(s).Some?
    ensures Sound(s, Parse(s).value)
    decreases |s|
  {
    hide ParseLength, ParseName, Sound;
    if s[0] == '*' {
      ParseIsSound(s[1..]);
      PrefixIsSound(s, Parse(s[1..]).value);
    } else if "[]" <= s {
      ParseIsSound(s[2..]);
      PrefixIsSound(s, Parse(s[2..]).value);
    } else if s[0] == '[' {
      var len := ParseLength(s[1..]).value;
      LengthIsSound(s[1..]);
      ParseIsSound(len.rest[1..]);
      ArrayIsSound(s, len, Parse(len.rest[1..]).value);
    } else if "map[" <= s {
      var k := Parse(s[4..]).value;
      ParseIsSound(s[4..]);
      ParseIsSound(k.rest[1..]);
      MapIsSound(s, k, Parse(k.rest[1..]).value);
    } else {
      NameIsSound(s);
      NamesAreSound(s, ParseName(s).value);
    }
  }

  lemma NamesAreSound(s: string, p: Parsed)
    requires IsName(p.e) && s == TypeString(p.e) + p.rest
    ensures Sound(s, p)
  {}

  lemma SelectorText(s: string, n: nat, m: nat)
    requires n < |s| && s[n] == '.' && m <= |s[n + 1..]|
    ensures s == TypeString(Selector(Ident(s[..n]), s[n + 1..][..m])) + s[n + 1..][m..]
  {
    var t := s[n + 1..];
    assert t == t[..m] + t[m..];
    assert s == s[..n] + "." + t;
    assert TypeString(Selector(Ident(s[..n]), t[..m])) == s[..n] + "." + t[..m];
  }

  lemma NameIsSound(s: string)
    requires ParseName(s).Some?
    ensures IsName(ParseName(s).value.e) && s == TypeString(ParseName(s).value.e) + ParseName(s).value.rest
  {
    var n := Span(s);
    assert s == s[..n] + s[n..];
    if n < |s| && s[n] == '.' {
      SelectorText(s, n, Span(s[n + 1..]));
      hide IsIdent, Span;
    }
  }

  lemma LengthIsSound(s: string)
    requires ParseLength(s).Some?
    ensures IsLength(ParseLength(s).value.e) && s == TypeString(ParseLength(s).value.e) + ParseLength(s).value.rest
  {
    var n := LiteralSpan(s);
    hide LiteralSpan, ParseName, IsLengthLit;
    if n == 0 {
      NameIsSound(s);
    } else {
      assert s == s[..n] + s[n..];
    }
  }

  /** So on well-formed types the printer is injective. */
  lemma PrinterIsInjective(a: Expr, b: Expr)
    requires WellFormed(a) && WellFormed(b) && TypeString(a) == TypeString(b)
    ensures a == b
  {
    RoundTrip(a, []);
    RoundTrip(b, []);
    assert TypeString(a) + [] == TypeString(a) && TypeString(b) + [] == TypeString(b);
  }

  /** The type as the printer sees it: every node it does not know is the identifier any. */
  function Collapse(e: Expr): Expr
  {
    match e
    case Star(x) => Star(Collapse(x))
    case Slice(elt) => Slice(Collapse(elt))
    case Array(len, elt) => Array(Collapse(len), Collapse(elt))
    case Map(key, value) => Map(Collapse(key), Collapse(value))
    case Interface(_) => Ident("any")
    case Func => Ident("any")
    case Chan => Ident("any")
    case OtherExpr => Ident("any")
    case _ => e
  }

  lemma {:induction false} CollapsePrintsAlike(e: Expr)
    ensures TypeString(Collapse(e)) == TypeString(e)
  {
    match e
    case Star(x) => CollapsePrintsAlike(x);
    case Slice(elt) => CollapsePrintsAlike(elt);
    case Array(len, elt) => CollapsePrintsAlike(len); CollapsePrintsAlike(elt);
    case Map(key, value) => CollapsePrintsAlike(key); CollapsePrintsAlike(value);
    case _ =>
  }

  /**
   * Outside it is not injective: two types print alike exactly when they differ only in nodes the
   * printer does not know, functions, channels, interfaces and other expressions, and in the name any.
   */
  lemma PrinterConfusesExactly(a: Expr, b: Expr)
    requires WellFormed(Collapse(a)) && WellFormed(Collapse(b))
    ensures TypeString(a) == TypeString(b) <==> Collapse(a) == Collapse(b)
  {
    hide TypeString, Collapse, WellFormed;
    CollapsePrintsAlike(a);
    CollapsePrintsAlike(b);
    if TypeString(a) == TypeString(b) {
      PrinterIsInjective(Collapse(a), Collapse(b));
    }
  }

  /** The same type with interface{} written any, as the two are one type. */
  function Normal(e: Expr): Expr
  {
    match e
    case Star(x) => Star(Normal(x))
    case Slice(elt) => Slice(Normal(elt))
    case Array(len, elt) => Array(len, Normal(elt))
    case Map(key, value) => Map(Normal(key), Normal(value))
    case Interface(limited) => if limited then e else Ident("any")
    case _ => e
  }

  /** What the printer writes for a type reads back as that type exactly when its normal form is well formed. */
  lemma PrintsTheType(e: Expr)
    ensures Parse(TypeString(e)) == Some(Parsed(Normal(e), "")) <==> WellFormed(Normal(e))
  {
    NormalPrintsAlike(e);
    assert TypeString(e) + "" == TypeString(e);
    if WellFormed(Normal(e)) {
      RoundTrip(Normal(e), "");
    }
    if Parse(TypeString(e)) == Some(Parsed(Normal(e), "")) {
      ParseIsSound(TypeString(e));
    }
    hide Parse, TypeString, Normal;
  }

  lemma {:induction false} NormalPrintsAlike(e: Expr)
    ensures TypeString(Normal(e)) == TypeString(e)
  {
    match e
    case Star(x) => NormalPrintsAlike(x);
    case Slice(elt) => NormalPrintsAlike(elt);
    case Array(_, elt) => NormalPrintsAlike(elt);
    case Map(key, value) => NormalPrintsAlike(key); NormalPrintsAlike(value);
    case _ =>
  }
}
