/**
  Code expressions: small trees of computations (the VM context address, linked
  symbols, immediate adds, loads, calls and if-then-else) that a code generator
  can expand into machine code or interpret directly. This module holds the value
  types, the `symbol_name` accessor and type inference (`result_type`) with the
  properties it promises; the text rendering is in module Display.
 */
module CodeExprs {
  import opened Wrappers

  /** The two integer types of the target. */
  datatype Type = I32 | I64

  /** Rust's `i32`, the width of a load's offset. */
  type Offset32 = x: int | -0x8000_0000 <= x < 0x8000_0000

  /** Rust's `i64`, the width of a symbol's or an immediate add's offset. */
  type Imm64 = x: int | -0x8000_0000_0000_0000 <= x < 0x8000_0000_0000_0000

  /** A symbolic name resolved later, by linking. */
  type ExternalName = string

  /**
    A code expression. Children are plain values (in the original they are
    reference-counted, which only adds sharing). Dafny refuses two fields of
    one name and different types, so the load's 32-bit offset is `loadOffset`;
    `then` and `else` are keywords, so the branches are `thenExpr`/`elseExpr`.
   */
  datatype CodeExpr =
    | VMContext
    | Symbol(name: ExternalName, offset: Imm64, colocated: bool)
    | IAddImm(base: CodeExpr, offset: Imm64, resultType: Type)
    | Load(base: CodeExpr, loadOffset: Offset32, resultType: Type, readonly: bool)
    | Call(callee: CodeExpr, args: seq<CodeExpr>, resultType: Type)
    | IfElse(condition: CodeExpr, thenExpr: CodeExpr, elseExpr: CodeExpr)

  // ---------------------------------------------------------------------------
  // symbol_name

  /** The name of a symbol; calling it on any other variant is a caller bug (a panic). */
  function SymbolName(e: CodeExpr): (r: ExternalName)
    requires e.Symbol?
    ensures r == e.name
  {
    e.name
  }

  // ---------------------------------------------------------------------------
  // result_type

  /**
    The type of an expression on a target whose pointer type is `ptrTy`. The
    original asserts that the two branches of an if-then-else have the same type
    and panics otherwise; here that panic is `None`, and it propagates upwards.
    The condition is never examined.
   */
  function ResultType(e: CodeExpr, ptrTy: Type): Option<Type>
  {
    match e
    case VMContext => Some(ptrTy)
    case Symbol(_, _, _) => Some(ptrTy)
    case IAddImm(_, _, t) => Some(t)
    case Load(_, _, t, _) => Some(t)
    case Call(_, _, t) => Some(t)
    case IfElse(_, thn, els) =>
      var result := ResultType(thn, ptrTy);
      if result.Some? && result == ResultType(els, ptrTy) then result else None
  }

  /**
    The typing rules stated declaratively: `e` has type `t` on a target with
    pointer type `ptrTy`. Context and symbols have the pointer type, the
    annotated variants have their annotation, and an if-then-else has a type
    when both its branches have it.
   */
  ghost predicate HasType(e: CodeExpr, ptrTy: Type, t: Type)
  {
    match e
    case VMContext => t == ptrTy
    case Symbol(_, _, _) => t == ptrTy
    case IAddImm(_, _, rt) => t == rt
    case Load(_, _, rt, _) => t == rt
    case Call(_, _, rt) => t == rt
    case IfElse(_, thn, els) => HasType(thn, ptrTy, t) && HasType(els, ptrTy, t)
  }

  /** Context and symbols have the pointer type, whatever the symbol's fields. */
  lemma PointerValuedTypes(ptrTy: Type)
    ensures ResultType(VMContext, ptrTy) == Some(ptrTy)
    ensures forall name: ExternalName, offset: Imm64, colocated: bool ::
      ResultType(Symbol(name, offset, colocated), ptrTy) == Some(ptrTy)
  {
  }

  /** Immediate adds, loads and calls report their stored type and never look at their children. */
  lemma AnnotatedTypes(t: Type, ptrTy: Type)
    ensures forall base: CodeExpr, offset: Imm64 :: ResultType(IAddImm(base, offset, t), ptrTy) == Some(t)
    ensures forall base: CodeExpr, offset: Offset32, readonly: bool ::
      ResultType(Load(base, offset, t, readonly), ptrTy) == Some(t)
    ensures forall callee: CodeExpr, args: seq<CodeExpr> :: ResultType(Call(callee, args, t), ptrTy) == Some(t)
  {
  }

  /**
    An if-then-else is typed exactly when both branches are typed with the same
    type, and then it has the then-branch's type; the condition plays no part.
   */
  lemma IfElseType(c: CodeExpr, thn: CodeExpr, els: CodeExpr, ptrTy: Type)
    ensures ResultType(IfElse(c, thn, els), ptrTy).Some? <==>
      ResultType(thn, ptrTy).Some? && ResultType(thn, ptrTy) == ResultType(els, ptrTy)
    ensures ResultType(IfElse(c, thn, els), ptrTy).Some? ==>
      ResultType(IfElse(c, thn, els), ptrTy) == ResultType(thn, ptrTy)
    ensures forall c': CodeExpr :: ResultType(IfElse(c', thn, els), ptrTy) == ResultType(IfElse(c, thn, els), ptrTy)
  {
  }

  /** Branches of two different types make the if-then-else fail; neither type is chosen silently. */
  lemma IfElseMismatchFails(c: CodeExpr, thn: CodeExpr, els: CodeExpr, ptrTy: Type, t1: Type, t2: Type)
    requires ResultType(thn, ptrTy) == Some(t1)
    requires ResultType(els, ptrTy) == Some(t2)
    requires t1 != t2
    ensures ResultType(IfElse(c, thn, els), ptrTy) == None
  {
  }

  /** Type inference agrees with the declarative typing rules, in both directions. */
  lemma {:induction false} ResultTypeMatchesRules(e: CodeExpr, ptrTy: Type, t: Type)
    ensures ResultType(e, ptrTy) == Some(t) <==> HasType(e, ptrTy, t)
  {
    match e
    case IfElse(_, thn, els) =>
      ResultTypeMatchesRules(thn, ptrTy, t);
      ResultTypeMatchesRules(els, ptrTy, t);
    case _ =>
  }

  /** Under the typing rules an expression has at most one type. */
  lemma {:induction false} HasTypeUnique(e: CodeExpr, ptrTy: Type, t1: Type, t2: Type)
    requires HasType(e, ptrTy, t1) && HasType(e, ptrTy, t2)
    ensures t1 == t2
  {
    match e
    case IfElse(_, thn, _) => HasTypeUnique(thn, ptrTy, t1, t2);
    case _ =>
  }

  /** Inference fails exactly when the typing rules give the expression no type at all. */
  lemma ResultTypeFailsIffUntypable(e: CodeExpr, ptrTy: Type)
    ensures ResultType(e, ptrTy) == None <==> forall t: Type :: !HasType(e, ptrTy, t)
  {
    if ResultType(e, ptrTy).Some? {
      ResultTypeMatchesRules(e, ptrTy, ResultType(e, ptrTy).value);
    } else {
      forall t: Type ensures !HasType(e, ptrTy, t) {
        ResultTypeMatchesRules(e, ptrTy, t);
      }
    }
  }

  /**
    Whether inference can reach a context or symbol node, the only places that
    consult the target: through if-then-else branches, never through a
    condition, a base, a callee or an argument.
   */
  predicate ReachesPointerLeaf(e: CodeExpr)
  {
    match e
    case VMContext => true
    case Symbol(_, _, _) => true
    case IfElse(_, thn, els) => ReachesPointerLeaf(thn) || ReachesPointerLeaf(els)
    case _ => false
  }

  /** An expression that reaches no context or symbol node has the same type on every target. */
  lemma {:induction false} TargetIndependentType(e: CodeExpr)
    requires !ReachesPointerLeaf(e)
    ensures ResultType(e, I32) == ResultType(e, I64)
  {
    match e
    case IfElse(_, thn, els) =>
      TargetIndependentType(thn);
      TargetIndependentType(els);
    case _ =>
  }

  /** A typed expression that reaches a context or symbol node has the pointer type. */
  lemma {:induction false} PointerLeafForcesPointerType(e: CodeExpr, ptrTy: Type, t: Type)
    requires ReachesPointerLeaf(e)
    requires ResultType(e, ptrTy) == Some(t)
    ensures t == ptrTy
  {
    match e
    case IfElse(_, thn, els) =>
      if ReachesPointerLeaf(thn) {
        PointerLeafForcesPointerType(thn, ptrTy, t);
      } else {
        PointerLeafForcesPointerType(els, ptrTy, t);
      }
    case _ =>
  }
}
