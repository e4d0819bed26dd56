# Code expressions, in Dafny

A model of the code-expression tree of a compiler backend: a small, immutable
tree of computations that code generation can expand into machine code or
interpret directly. The six variants are the address of the VM context
(`VMContext`), a symbol resolved at link time with a constant offset and a
colocation flag (`Symbol`), an add of an immediate (`IAddImm`), a load from
memory (`Load`), a call (`Call`) and an if-then-else (`IfElse`). The model
covers the data types, the `symbol_name` accessor, type inference
(`result_type`) and the canonical text rendering (`Display`).

Files and modules:

- `wrappers.dfy` — `Wrappers`: the `Option` datatype.
- `text.dfy` — `Text`: decimal rendering of integers with its parser and
  round trip, `Join` with its append and length laws, and small facts about
  prefixes of concatenations.
- `codeexpr.dfy` — `CodeExprs`: `Type` (`I32 | I64`), the 32- and 64-bit
  offset types as subset types of `int`, the `CodeExpr` datatype,
  `SymbolName`, `ResultType`, and a declarative typing relation `HasType`
  with the lemmas connecting the two.
- `display.dfy` — `Display`: `TypeName`, one text function per variant (the
  `write!` format of each arm), `Render`, and lemmas about what the text
  shows. Parsers for the type name, the symbol offset suffix, the variant head
  and the type annotation serve as partners.
- `demo.dfy` — `Demo`: the tree the demonstration program prints, and the
  concrete edge cases of the rendering rules.

Modelling decisions:

- Reference-counted children become plain datatype fields; `Vec<CodeExpr>`
  becomes `seq<CodeExpr>`. Structural equality is Dafny's datatype equality.
- The `TargetIsa` trait is reduced to its one query: `ResultType` takes the
  pointer type `ptrTy` as an argument.
- The `assert_eq!` on the branches of an if-then-else is modelled by an
  `Option<Type>` result: `None` stands for the panic. It propagates
  upwards, as a panic would. The condition is never examined.
- `symbol_name` panics on any variant other than `Symbol`; in the model that
  is its precondition `e.Symbol?`.
- Dafny refuses two datatype fields of one name and different types, so the
  load's 32-bit offset is `loadOffset`. The symbol's and the immediate add's
  64-bit offsets keep the name `offset`. `then` and `else` are keywords, so
  the branches are `thenExpr` and `elseExpr`.
- Behaviour kept exactly as the code has it, quirks included: a call
  without arguments renders as `call.T(callee, )` with the separator kept;
  a branch-type mismatch is a panic (`None` here), not an error value
  carrying both types; a load with a negative offset renders as `(base+-8)`;
  no symbol is validated when it is built.

## Model

| member | source | states |
|---|---|---|
| CodeExprs.SymbolName | src/codeexpr.rs:114-120 | defined only for a `Symbol` (any other variant panics); returns exactly the stored name |
| CodeExprs.PointerValuedTypes | src/codeexpr.rs:123-125 | the VM context and every symbol, whatever its name, offset or colocation, have the target's pointer type |
| CodeExprs.AnnotatedTypes | src/codeexpr.rs:126-128 | an immediate add, a load and a call have their stored type, for every base, offset, callee and argument list |
| CodeExprs.IfElseType | src/codeexpr.rs:129-137 | an if-then-else is typed iff both branches are typed with the same type, then it has the then-branch's type; changing the condition never changes the result |
| CodeExprs.IfElseMismatchFails | src/codeexpr.rs:134-136 | branches typed with two different types make inference fail; neither type is returned |
| CodeExprs.ResultTypeMatchesRules | src/codeexpr.rs:123-139 | inference returns `t` iff the declarative typing rules give the expression type `t` |
| CodeExprs.HasTypeUnique | src/codeexpr.rs:123-139 | under the typing rules an expression has at most one type |
| CodeExprs.ResultTypeFailsIffUntypable | src/codeexpr.rs:129-137 | inference fails iff the typing rules give the expression no type |
| CodeExprs.TargetIndependentType | src/codeexpr.rs:123-128 | an expression whose inference reaches no context or symbol node has the same type on 32- and 64-bit-pointer targets |
| CodeExprs.PointerLeafForcesPointerType | src/codeexpr.rs:123-137 | a typed expression whose inference reaches a context or symbol node has the pointer type |
| Text.NatToDecimal | src/codeexpr.rs:162 | the decimal digits of a natural number are non-empty, all digits, with no leading zero |
| Text.NatDecimalRoundTrip | src/codeexpr.rs:162 | reading the digits back gives the number |
| Text.IntToDecimal | src/codeexpr.rs:162 | an integer's text is non-empty and starts with '-' iff the integer is negative |
| Text.IntDecimalRoundTrip | src/codeexpr.rs:162 | parsing an integer's text gives the integer back |
| Text.IntToDecimalInjective | src/codeexpr.rs:170 | two integers have the same text iff they are equal |
| Text.JoinAppend | src/codeexpr.rs:193-196 | joining one more part appends exactly one separator and the part |
| Text.JoinLength | src/codeexpr.rs:193-196 | a join has the parts' characters plus one separator per gap |
| Display.TypeNameRoundTrip | src/codeexpr.rs:21-28 | `i32` and `i64` are three characters long and read back to the type they name, and only to it |
| Display.OffsetSuffix | src/codeexpr.rs:157-163 | a symbol's suffix is empty iff the offset is 0, is '+' and the decimal when positive, and the decimal (starting with '-') when negative |
| Display.OffsetSuffixRoundTrip | src/codeexpr.rs:157-163 | the offset suffix reads back to the offset |
| Display.SymbolNameIsRendered | src/codeexpr.rs:146-156 | a symbol's text starts with "symbol ", then "colocated " when colocated, then the name `SymbolName` returns, then the offset suffix |
| Display.SymbolOffsetRendering | src/codeexpr.rs:146-164 | two symbols of one name and colocation render alike iff their offsets are equal |
| Display.ColocatedMarker | src/codeexpr.rs:151-155 | a colocated symbol shows "colocated " after "symbol "; the converse fails, since a name may begin with "colocated " |
| Display.LoadRendering | src/codeexpr.rs:171-183 | a load's text is its head, then "readonly " iff the flag is set (otherwise "(" directly) |
| Display.LoadOffsetRendering | src/codeexpr.rs:176-183 | a load's text ends with "+", its offset in decimal and ")" |
| Display.CallWithoutArguments | src/codeexpr.rs:184-197 | a call with no arguments renders as `call.T(callee, )`, separator kept |
| Display.CallWithOneArgument | src/codeexpr.rs:184-197 | a call with one argument renders as `call.T(callee, arg)` |
| Display.CallAppendArgument | src/codeexpr.rs:188-196 | adding an argument to a call that has some inserts exactly ", " and the new argument's text before the closing parenthesis |
| Display.RenderedVariant | src/codeexpr.rs:142-205 | the start of every rendering names its variant ("vmctx", "symbol ", "iadd_imm.", "load.", "call.", "if ") |
| Display.RenderedType | src/codeexpr.rs:166-197 | the type annotation right after the head of an immediate add, a load or a call is the type inference returns; a context, a symbol and an if-then-else have no annotation of their own |
| Demo.DemoRendering | src/main.rs:7-20 | the demonstration tree renders as `if vmctx { symbol foo } else { load.i32 notrap aligned (vmctx+32) }` |
| Demo.DemoTypes | src/main.rs:7-20 | the demonstration tree types as `i32` on a 32-bit-pointer target and fails on a 64-bit one |
| Demo.SymbolOffsetExamples | src/codeexpr.rs:151-163 | offsets 0, 5 and -5 render as no suffix, "+5" and "-5" |
| Demo.EmptyCallExample | src/codeexpr.rs:184-197 | a call of `symbol f` with no arguments renders as `call.i64(symbol f, )` |
| Demo.NegativeLoadOffsetExample | src/codeexpr.rs:171-183 | a readonly load at offset -8 renders as `load.i64 notrap aligned readonly (vmctx+-8)` |
| Demo.CallExample | src/codeexpr.rs:184-197 | a call with two arguments renders them separated by ", " |

## Left out

- Reference counting and sharing of children (`Rc`): there is no observable
  behaviour beyond the tree value, so children are plain values.
- The `fmt::Formatter` plumbing and its errors: rendering is a pure function
  to a string; a formatter failure is an I/O concern.
- `TargetIsa` beyond `pointer_type()`: its implementations are not part of
  this model; the pointer type is a parameter.
- The derived `Hash`: there is no hash function to reason about.
- Validation of colocated against preemptible symbols: the code only
  mentions it in a comment and has no preemptible flag, so no constructor
  check is modelled.
- The demonstration program's `println!` (src/main.rs): only its tree is
  used, as a concrete rendering and typing example.
