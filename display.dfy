/**
  The canonical text of types and code expressions (the original's `Display`
  implementations). Each variant's text is built by its own function from the
  already-rendered children, as the corresponding `write!` format does; Render
  puts them together recursively. Rendering reads only stored fields: it never
  consults the target or type inference.
 */
module Display {
  import opened Wrappers
  import opened Text
  import opened CodeExprs

  /** A type's name as rendered. */
  function TypeName(t: Type): string
  {
    match t
    case I32 => "i32"
    case I64 => "i64"
  }

  /** Reads a type name back. */
  function ParseType(s: string): Option<Type>
  {
    if s == "i32" then Some(I32) else if s == "i64" then Some(I64) else None
  }

  /** Type names are three characters long and read back to the type they name, and only to it. */
  lemma TypeNameRoundTrip(t: Type, s: string)
    ensures |TypeName(t)| == 3
    ensures ParseType(TypeName(t)) == Some(t)
    ensures ParseType(s) == Some(t) ==> s == TypeName(t)
  {
  }

  // ---------------------------------------------------------------------------
  // The text of each variant, from the rendered children

  /** What a symbol's text starts with: "symbol ", then "colocated " when it is colocated. */
  function SymbolHead(colocated: bool): string
  {
    "symbol " + (if colocated then "colocated " else "")
  }

  /** What follows a symbol's name: "+" before a positive offset, then the offset unless it is zero. */
  function OffsetSuffix(offset: int): (r: string)
    ensures r == "" <==> offset == 0
    ensures offset > 0 ==> r[0] == '+' && r[1..] == IntToDecimal(offset)
    ensures offset < 0 ==> r[0] == '-' && r == IntToDecimal(offset)
  {
    (if offset > 0 then "+" else "") + (if offset != 0 then IntToDecimal(offset) else "")
  }

  /** Reads a symbol's offset suffix back; None when `s` is not one. */
  function ParseOffsetSuffix(s: string): Option<int>
  {
    if s == "" then Some(0)
    else if s[0] == '+' then
      match ParseInt(s[1..])
      case Some(v) => if v > 0 then Some(v) else None
      case None => None
    else
      match ParseInt(s)
      case Some(v) => if v < 0 then Some(v) else None
      case None => None
  }

  lemma OffsetSuffixRoundTrip(offset: int)
    ensures ParseOffsetSuffix(OffsetSuffix(offset)) == Some(offset)
  {
    IntDecimalRoundTrip(offset);
  }

  function SymbolText(name: string, offset: int, colocated: bool): string
  {
    SymbolHead(colocated) + name + OffsetSuffix(offset)
  }

  function IAddImmText(t: Type, base: string, offset: int): string
  {
    "iadd_imm." + TypeName(t) + "(" + base + ", " + IntToDecimal(offset) + ")"
  }

  /** The part of a load's text before the place where "readonly " may appear. */
  function LoadHead(t: Type): string
  {
    "load." + TypeName(t) + " notrap aligned "
  }

  function LoadText(t: Type, readonly: bool, base: string, offset: int): string
  {
    LoadHead(t) + (if readonly then "readonly " else "") + "(" + base + "+" + IntToDecimal(offset) + ")"
  }

  function CallText(t: Type, callee: string, args: seq<string>): string
  {
    "call." + TypeName(t) + "(" + callee + ", " + Join(args, ", ") + ")"
  }

  function IfElseText(condition: string, thn: string, els: string): string
  {
    "if " + condition + " { " + thn + " } else { " + els + " }"
  }

  // ---------------------------------------------------------------------------
  // Rendering

  /** The canonical text of an expression. */
  function Render(e: CodeExpr): string
  {
    match e
    case VMContext => "vmctx"
    case Symbol(name, offset, colocated) => SymbolText(name, offset, colocated)
    case IAddImm(base, offset, t) => IAddImmText(t, Render(base), offset)
    case Load(base, offset, t, readonly) => LoadText(t, readonly, Render(base), offset)
    case Call(callee, args, t) => CallText(t, Render(callee), RenderArgs(args))
    case IfElse(c, thn, els) => IfElseText(Render(c), Render(thn), Render(els))
  }

  /** The rendered arguments of a call, in order. */
  function RenderArgs(args: seq<CodeExpr>): (r: seq<string>)
    ensures |r| == |args|
    ensures forall i :: 0 <= i < |args| ==> r[i] == Render(args[i])
  {
    seq(|args|, i requires 0 <= i < |args| => Render(args[i]))
  }

  // ---------------------------------------------------------------------------
  // Symbols

  /** A symbol renders as "symbol ", "colocated " when colocated, its name, then its offset suffix. */
  lemma SymbolNameIsRendered(e: CodeExpr)
    requires e.Symbol?
    ensures var head := SymbolHead(e.colocated);
      var s := Render(e);
      && |s| >= |head| + |SymbolName(e)|
      && s[..7] == "symbol "
      && s[..|head| + |SymbolName(e)|] == head + SymbolName(e)
      && s[|head| + |SymbolName(e)|..] == OffsetSuffix(e.offset)
  {
  }

  /** Two symbols of the same name and placement render alike exactly when their offsets are equal. */
  lemma SymbolOffsetRendering(name: ExternalName, colocated: bool, o1: Imm64, o2: Imm64)
    ensures Render(Symbol(name, o1, colocated)) == Render(Symbol(name, o2, colocated)) <==> o1 == o2
  {
    var n := |SymbolHead(colocated) + name|;
    if Render(Symbol(name, o1, colocated)) == Render(Symbol(name, o2, colocated)) {
      SymbolNameIsRendered(Symbol(name, o1, colocated));
      SymbolNameIsRendered(Symbol(name, o2, colocated));
      OffsetSuffixRoundTrip(o1);
      OffsetSuffixRoundTrip(o2);
    }
  }

  /**
    "colocated " follows "symbol " whenever the flag is set; the converse does
    not hold, since a name may itself begin with "colocated " (the text is for
    reading, not for parsing back).
   */
  lemma ColocatedMarker(name: ExternalName, offset: Imm64)
    ensures Render(Symbol(name, offset, true))[7..17] == "colocated "
    ensures Render(Symbol("colocated " + name, offset, false)) == Render(Symbol(name, offset, true))
  {
  }

  // ---------------------------------------------------------------------------
  // Loads

  /**
    A load renders as its head, then "readonly " exactly when the flag is set,
    then "(".
   */
  lemma LoadRendering(base: CodeExpr, offset: Offset32, t: Type, readonly: bool)
    ensures var s := Render(Load(base, offset, t, readonly));
      var k := |LoadHead(t)|;
      && |s| > k
      && s[..k] == LoadHead(t)
      && (readonly <==> s[k] == 'r')
      && (readonly ==> k + 9 <= |s| && s[k..k + 9] == "readonly ")
      && (!readonly ==> s[k] == '(')
  {
    LoadTextMarker(t, readonly, Render(base), IntToDecimal(offset));
  }

  lemma LoadTextMarker(t: Type, readonly: bool, base: string, dec: string)
    ensures var s := LoadHead(t) + (if readonly then "readonly " else "") + "(" + base + "+" + dec + ")";
      var k := |LoadHead(t)|;
      && |s| > k
      && s[..k] == LoadHead(t)
      && (readonly <==> s[k] == 'r')
      && (readonly ==> k + 9 <= |s| && s[k..k + 9] == "readonly ")
      && (!readonly ==> s[k] == '(')
  {
  }

  /** A load's text ends with "+", its offset and ")"; a negative offset therefore shows as "+-". */
  lemma LoadOffsetRendering(base: CodeExpr, offset: Offset32, t: Type, readonly: bool)
    ensures var s := Render(Load(base, offset, t, readonly));
      var tail := "+" + IntToDecimal(offset) + ")";
      |tail| <= |s| && s[|s| - |tail|..] == tail
  {
    var w := LoadHead(t) + (if readonly then "readonly " else "") + "(" + Render(base);
    var dec := IntToDecimal(offset);
    ConcatAssoc(w + "+", dec, ")");
    ConcatAssoc(w, "+", dec + ")");
    PrefixOfConcat(w, "+" + (dec + ")"));
  }

  // ---------------------------------------------------------------------------
  // Calls

  /** A call with no arguments keeps the separator after the callee: "(callee, )". */
  lemma CallWithoutArguments(callee: CodeExpr, t: Type)
    ensures Render(Call(callee, [], t)) == "call." + TypeName(t) + "(" + Render(callee) + ", )"
  {
  }

  /** A call with one argument renders it after the callee and ", ". */
  lemma CallWithOneArgument(callee: CodeExpr, arg: CodeExpr, t: Type)
    ensures Render(Call(callee, [arg], t)) == "call." + TypeName(t) + "(" + Render(callee) + ", " + Render(arg) + ")"
  {
    assert RenderArgs([arg]) == [Render(arg)];
  }

  /**
    Adding an argument to a call that has some changes its text by exactly
    ", " and the new argument before the closing parenthesis.
   */
  lemma CallAppendArgument(callee: CodeExpr, args: seq<CodeExpr>, arg: CodeExpr, t: Type)
    requires |args| > 0
    ensures var before := Render(Call(callee, args, t));
      |before| > 0 && Render(Call(callee, args + [arg], t)) == before[..|before| - 1] + ", " + Render(arg) + ")"
  {
    var head := "call." + TypeName(t) + "(" + Render(callee) + ", ";
    var joined := Join(RenderArgs(args), ", ");
    assert RenderArgs(args + [arg]) == RenderArgs(args) + [Render(arg)];
    JoinAppend(RenderArgs(args), Render(arg), ", ");
    var before := Render(Call(callee, args, t));
    assert before == (head + joined) + ")";
    PrefixOfConcat(head + joined, ")");
    assert before[..|before| - 1] == head + joined;
    calc {
      Render(Call(callee, args + [arg], t));
      (head + Join(RenderArgs(args + [arg]), ", ")) + ")";
      (head + (joined + ", " + Render(arg))) + ")";
      { ConcatAssoc(head, joined + ", ", Render(arg)); ConcatAssoc(head, joined, ", "); }
      (head + joined) + ", " + Render(arg) + ")";
    }
  }

  // ---------------------------------------------------------------------------
  // What the head of a rendering tells

  /** The six variants of an expression. */
  datatype Variant = VMContextNode | SymbolNode | IAddImmNode | LoadNode | CallNode | IfElseNode

  function VariantOf(e: CodeExpr): Variant
  {
    match e
    case VMContext => VMContextNode
    case Symbol(_, _, _) => SymbolNode
    case IAddImm(_, _, _) => IAddImmNode
    case Load(_, _, _, _) => LoadNode
    case Call(_, _, _) => CallNode
    case IfElse(_, _, _) => IfElseNode
  }

  /** Reads the variant back from the start of a text. */
  function VariantOfText(s: string): Option<Variant>
  {
    if s == "vmctx" then Some(VMContextNode)
    else if "symbol " <= s then Some(SymbolNode)
    else if "iadd_imm." <= s then Some(IAddImmNode)
    else if "load." <= s then Some(LoadNode)
    else if "call." <= s then Some(CallNode)
    else if "if " <= s then Some(IfElseNode)
    else None
  }

  /** The type written after the head of an immediate add, a load or a call; None for the other variants. */
  function TypeOfText(s: string): Option<Type>
  {
    if |s| >= 12 && "iadd_imm." <= s then ParseType(s[9..12])
    else if |s| >= 8 && ("load." <= s || "call." <= s) then ParseType(s[5..8])
    else None
  }

  /** The fixed text each variant's rendering starts with, up to and including the type name. */
  function HeadOf(e: CodeExpr): string
  {
    match e
    case VMContext => "vmctx"
    case Symbol(_, _, _) => "symbol "
    case IAddImm(_, _, t) => "iadd_imm." + TypeName(t)
    case Load(_, _, t, _) => "load." + TypeName(t)
    case Call(_, _, t) => "call." + TypeName(t)
    case IfElse(_, _, _) => "if "
  }

  lemma RenderedHead(e: CodeExpr)
    ensures HeadOf(e) <= Render(e)
    ensures e.VMContext? ==> Render(e) == "vmctx"
  {
    var s := Render(e);
    match e
    case VMContext =>
    case Symbol(name, offset, colocated) =>
      PrefixOfConcat("symbol ", if colocated then "colocated " else "");
      PrefixGrows("symbol ", SymbolHead(colocated), name);
      PrefixGrows("symbol ", SymbolHead(colocated) + name, OffsetSuffix(offset));
    case IAddImm(base, offset, t) =>
      var h := HeadOf(e);
      PrefixOfConcat(h, "(");
      PrefixGrows(h, h + "(", Render(base));
      PrefixGrows(h, h + "(" + Render(base), ", ");
      PrefixGrows(h, h + "(" + Render(base) + ", ", IntToDecimal(offset));
      PrefixGrows(h, h + "(" + Render(base) + ", " + IntToDecimal(offset), ")");
    case Load(base, offset, t, readonly) =>
      LoadRendering(base, offset, t, readonly);
      assert HeadOf(e) == LoadHead(t)[..8];
    case Call(callee, args, t) =>
      var h := HeadOf(e);
      PrefixOfConcat(h, "(");
      PrefixGrows(h, h + "(", Render(callee));
      PrefixGrows(h, h + "(" + Render(callee), ", ");
      PrefixGrows(h, h + "(" + Render(callee) + ", ", Join(RenderArgs(args), ", "));
      PrefixGrows(h, h + "(" + Render(callee) + ", " + Join(RenderArgs(args), ", "), ")");
    case IfElse(c, thn, els) =>
      PrefixOfConcat("if ", Render(c));
      PrefixGrows("if ", "if " + Render(c), " { ");
      PrefixGrows("if ", "if " + Render(c) + " { ", Render(thn));
      PrefixGrows("if ", "if " + Render(c) + " { " + Render(thn), " } else { ");
      PrefixGrows("if ", "if " + Render(c) + " { " + Render(thn) + " } else { ", Render(els));
      PrefixGrows("if ", "if " + Render(c) + " { " + Render(thn) + " } else { " + Render(els), " }");
  }

  /** Every rendering starts with a head that names its variant. */
  lemma RenderedVariant(e: CodeExpr)
    ensures VariantOfText(Render(e)) == Some(VariantOf(e))
  {
    RenderedHead(e);
    var s := Render(e);
    var h := HeadOf(e);
    SliceOfPrefix(h, s, 0, |h|);
    match e
    case VMContext =>
    case Symbol(_, _, _) =>
    case IAddImm(_, _, t) =>
      SliceOfPrefix(h, s, 0, 9);
      assert s[0] == 'i' && s[1] == 'a';
    case Load(_, _, t, _) =>
      SliceOfPrefix(h, s, 0, 5);
      assert s[0] == 'l';
    case Call(_, _, t) =>
      SliceOfPrefix(h, s, 0, 5);
      assert s[0] == 'c';
    case IfElse(_, _, _) =>
      assert s[0] == 'i' && s[1] == 'f';
  }

  lemma TypeOfTextAfterHead(s: string, kind: string, t: Type)
    requires kind == "iadd_imm." || kind == "load." || kind == "call."
    requires kind + TypeName(t) <= s
    ensures TypeOfText(s) == Some(t)
  {
    var h := kind + TypeName(t);
    SliceOfPrefix(h, s, 0, |kind|);
    SliceOfPrefix(h, s, |kind|, |h|);
    assert h[..|kind|] == kind && h[|kind|..] == TypeName(t);
    TypeNameRoundTrip(t, "");
    assert kind != "iadd_imm." ==> s[0] != 'i';
  }

  lemma NoTypeOfText(s: string)
    requires s == "vmctx" || "symbol " <= s || "if " <= s
    ensures TypeOfText(s) == None
  {
    if "if " <= s {
      assert s[0] == 'i' && s[1] == 'f';
    } else if s != "vmctx" {
      assert s[0] == 's';
    }
  }

  /**
    The type annotation right after the head of an immediate add, a load or a
    call is the type inference returns; a context, a symbol and an if-then-else
    have no annotation of their own.
   */
  lemma RenderedType(e: CodeExpr, ptrTy: Type)
    ensures TypeOfText(Render(e)) == if e.IAddImm? || e.Load? || e.Call? then ResultType(e, ptrTy) else None
  {
    RenderedHead(e);
    match e
    case IAddImm(_, _, t) => TypeOfTextAfterHead(Render(e), "iadd_imm.", t);
    case Load(_, _, t, _) => TypeOfTextAfterHead(Render(e), "load.", t);
    case Call(_, _, t) => TypeOfTextAfterHead(Render(e), "call.", t);
    case _ => NoTypeOfText(Render(e));
  }
}
