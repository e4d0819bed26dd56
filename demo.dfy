/**
  Concrete expressions and what they render to and type as: the tree the
  demonstration program builds and prints, and the edge cases of the
  rendering rules (offset signs, a call without arguments).
 */
module Demo {
  import opened Wrappers
  import opened Text
  import opened CodeExprs
  import opened Display

  /** `if vmctx { symbol foo } else { load.i32 ... (vmctx+32) }`, as the demonstration builds it. */
  function DemoTree(): CodeExpr
  {
    IfElse(VMContext, Symbol("foo", 0, false), Load(VMContext, 32, I32, false))
  }

  /** The else-branch of the demonstration tree on its own. */
  lemma DemoLoadRendering()
    ensures Render(Load(VMContext, 32, I32, false)) == "load.i32 notrap aligned (vmctx+32)"
  {
    assert IntToDecimal(32) == "32";
  }

  /** The demonstration tree's text up to its else-branch. */
  lemma DemoTextHead()
    ensures "if " + "vmctx" + " { " + "symbol foo" + " } else { " == "if vmctx { symbol foo } else { "
  {
  }

  /** The demonstration tree's text, assembled from its children's texts. */
  lemma DemoText()
    ensures IfElseText("vmctx", "symbol foo", "load.i32 notrap aligned (vmctx+32)")
      == "if vmctx { symbol foo } else { load.i32 notrap aligned (vmctx+32) }"
  {
    DemoTextHead();
    assert "if vmctx { symbol foo } else { " + "load.i32 notrap aligned (vmctx+32)"
      == "if vmctx { symbol foo } else { load.i32 notrap aligned (vmctx+32)";
  }

  lemma DemoRendering()
    ensures Render(DemoTree()) == "if vmctx { symbol foo } else { load.i32 notrap aligned (vmctx+32) }"
  {
    DemoLoadRendering();
    assert Render(Symbol("foo", 0, false)) == "symbol foo";
    DemoText();
  }

  /**
    The demonstration tree is typed only on a 32-bit target: its then-branch is
    a symbol (pointer type) and its else-branch an `i32` load.
   */
  lemma DemoTypes()
    ensures ResultType(DemoTree(), I32) == Some(I32)
    ensures ResultType(DemoTree(), I64) == None
  {
  }

  lemma SymbolOffsetExamples()
    ensures Render(Symbol("foo", 0, false)) == "symbol foo"
    ensures Render(Symbol("foo", 5, false)) == "symbol foo+5"
    ensures Render(Symbol("foo", -5, true)) == "symbol colocated foo-5"
  {
    assert IntToDecimal(5) == "5";
    assert IntToDecimal(-5) == "-5";
  }

  lemma EmptyCallExample()
    ensures Render(Call(Symbol("f", 0, false), [], I64)) == "call.i64(symbol f, )"
  {
  }

  lemma NegativeLoadOffsetExample()
    ensures Render(Load(VMContext, -8, I64, true)) == "load.i64 notrap aligned readonly (vmctx+-8)"
  {
    assert IntToDecimal(-8) == "-8";
  }

  /** A call with two arguments separates them with ", ". */
  lemma CallExample()
    ensures Render(Call(VMContext, [VMContext, Symbol("g", 0, false)], I32)) == "call.i32(vmctx, vmctx, symbol g)"
  {
    var args := [VMContext, Symbol("g", 0, false)];
    assert Render(args[1]) == "symbol g";
    assert RenderArgs(args) == ["vmctx", "symbol g"];
    CallExampleText();
  }

  lemma CallExampleText()
    ensures CallText(I32, "vmctx", ["vmctx", "symbol g"]) == "call.i32(vmctx, vmctx, symbol g)"
  {
  }
}
