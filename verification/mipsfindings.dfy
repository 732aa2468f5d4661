/** Inputs on which the backend as written, the one `EmitProgram` models,
    produces a wrong listing, each beside the corrected behaviour. */
module MipsFindings {
  import opened Common
  import Int32
  import opened Tac
  import opened TacFacts
  import opened Mips
  import opened MipsGen
  import opened MipsLayout
  import opened MipsFrame
  import opened MipsProps
  import opened MipsRun

  // ---------------------------------------------------------------------
  // A string literal loaded from a stack slot
  // ---------------------------------------------------------------------

  /** `int f(int a, int b) { return "x"; }`, in a program that also has an
      `int main()`: the type checker accepts the return, since a string
      literal types as int, and this is the function's TAC. */
  const StringReturn: Function :=
    Function("f", ["a", "b"], [Instr(RET, Some("\"x\""), None, None)])

  /** The pre-scan skips the literal: two slots, a 16-byte frame. */
  lemma StringReturnFrame()
    ensures ScanNames(StringReturn) == ["a", "b"]
    ensures FrameBytes(2) == 16
  {
    var f := StringReturn;
    assert AsOperands(f.params) == [Some("a"), Some("b")];
    assert AddNames([], [Some("a")]) == ["a"] by {
      assert [Some("a")][..0] == [];
    }
    assert AddNames([], AsOperands(f.params)) == ["a", "b"] by {
      assert [Some("a"), Some("b")][..1] == [Some("a")];
    }
    GatherOne(f.code[0], ScanOperands);
    assert f.code == [f.code[0]];
    assert !Slotted(Some("\"x\""));
    assert AddNames(["a", "b"], [Some("\"x\"")]) == ["a", "b"] by {
      assert [Some("\"x\"")][..0] == [];
    }
    assert Int32.Rem(16, 16) == 0;
  }

  /** The state in which `f`'s RET is translated: `a` at -4, `b` at -8, next
      free offset -12, frame 16. */
  const AtReturn: Gen := Gen([], [], map["a" := -4, "b" := -8], -12, [], map[], 0, 16, false)

  /** As written, `emitLoad` gives the literal a slot of its own, at -12,
      which lies outside the 16-byte frame's slot area: it is the word where
      the prologue saved the caller's `$fp`. */
  lemma StringLoadAsWritten()
    ensures EmitLoad(AtReturn, Some("\"x\""), V0).Ok?
    ensures EmitLoad(AtReturn, Some("\"x\""), V0).value.text == [Lw(V0, -12, FP)]
    ensures "\"x\"" in EmitLoad(AtReturn, Some("\"x\""), V0).value.slots
    ensures !InFrame([Lw(V0, -12, FP)], 16)
  {
    assert FpOff([Lw(V0, -12, FP)][0]) == Some(-12);
  }

  /** A RET of a string literal that has no slot reads it, as written, from
      the next free offset. */
  lemma StringRetLoad(g: Gen, lit: string)
    requires IsStringLit(Some(lit)) && lit !in g.slots
    ensures var r := EmitRet(g, Instr(RET, Some(lit), None, None));
      r.Ok? && |r.value.text| > |g.text| && r.value.text[|g.text|] == Lw(V0, g.next, FP)
  {
    assert !IsIntOperand(Some(lit)) && !IsCharLit(Some(lit));
  }

  /** A function whose code is one RET of a string literal: as written, its
      listing reads the literal from the word just past the pre-scanned
      slots. */
  lemma StringRetListing(g: Gen, f: Function, lit: string)
    requires WellNamed(f) && 4 * |ScanNames(f)| + 8 <= Int32.MAX - 15
    requires f.code == [Instr(RET, Some(lit), None, None)]
    requires IsStringLit(Some(lit)) && lit !in ScanNames(f)
    ensures EmitFunction(g, f).Ok?
    ensures Lw(V0, -4 * (|ScanNames(f)| + 1), FP) in EmitFunction(g, f).value.text
  {
    var g3 := BodyStart(g, f);
    var i := f.code[0];
    assert f.code[..0] == [];
    assert EmitCode(g3, f.code) == EmitRet(g3, i);
    StringRetLoad(g3, lit);
    assert HasRet(f.code);
    var t := EmitFunction(g, f).value.text;
    assert t[|g3.text|] == Lw(V0, -4 * (|ScanNames(f)| + 1), FP);
  }

  /** The same load in the real translation of `f`: as written, the
      listing reads `$v0` from -12, outside the 16-byte frame's slot area. */
  lemma StringReturnListing()
    ensures EmitFunction(Fresh, StringReturn).Ok?
    ensures var t := EmitFunction(Fresh, StringReturn).value.text;
      Lw(V0, -12, FP) in t && !InFrame(t, 16)
  {
    StringReturnFrame();
    assert WellNamed(StringReturn);
    StringRetListing(Fresh, StringReturn, "\"x\"");
    var t := EmitFunction(Fresh, StringReturn).value.text;
    var k :| 0 <= k < |t| && t[k] == Lw(V0, -12, FP);
    assert FpOff(t[k]) == Some(-12);
  }

  /** Corrected, the literal is loaded as `emitMov` and the argument loads
      already do, as the address of its pooled string, and no slot is
      added. */
  lemma StringLoadCorrected()
    ensures EmitOperand(AtReturn, Some("\"x\""), V0).Ok?
    ensures EmitOperand(AtReturn, Some("\"x\""), V0).value.text == [La(V0, StrLabel(0))]
    ensures EmitOperand(AtReturn, Some("\"x\""), V0).value.slots == AtReturn.slots
    ensures EmitOperand(AtReturn, Some("\"x\""), V0).value.data == [Asciiz(StrLabel(0), "x")]
  {
    assert "\"x\""[1..2] == "x";
    assert EscapeBodyAsWritten("x") == "x";
  }

  /** Running the as-written load of the literal right after `f`'s
      prologue puts the caller's `$fp` into `$v0`: the literal's slot, -12,
      is the word where the 16-byte prologue saved it. */
  lemma StringReturnValueAsWritten(m: Machine, labels: map<string, int>) returns (m5: Machine)
    requires Int32.MIN + 16 <= Get(m, SP)
    ensures Run(m, Prologue(16) + [Lw(V0, -12, FP)], labels) == Some(m5)
    ensures Get(m5, V0) == Get(m, FP)
  {
    m5 := LoadSavedFp(m, 16, V0, labels);
    assert Prologue(16) == FrameSetup(16);
  }

  // ---------------------------------------------------------------------
  // Falling off the end after an early return
  // ---------------------------------------------------------------------

  /** `void f(int x) { if (x) { return; } }` ends in a label after its only
      RET; here reduced to the RET and the label. */
  const EarlyReturn: Function :=
    Function("f", [], [Instr(RET, None, None, None), Instr(LABEL, Some("L"), None, None)])

  const Fresh: Gen := Gen([], [], map[], -4, [], map[], 0, 0, false)

  /** A function without parameters whose code is a RET and a named label
      needs no slots. */
  lemma RetThenLabelScan(f: Function, l: string)
    requires f.params == [] && f.code == [Instr(RET, None, None, None), Instr(LABEL, Some(l), None, None)]
    ensures ScanNames(f) == [] && WellNamed(f)
  {
    GatherOne(f.code[0], ScanOperands);
    GatherAppend([f.code[0]], [f.code[1]], ScanOperands);
    GatherOne(f.code[1], ScanOperands);
    assert f.code == [f.code[0]] + [f.code[1]];
    var scanned: seq<Operand> := [None];
    assert Gather(f.code, ScanOperands) == scanned;
    assert AddNames([], AsOperands(f.params)) == [];
    assert scanned[..0] == [];
  }

  /** A named LABEL appends exactly its label line. */
  lemma NamedLabel(g: Gen, l: string)
    ensures EmitInstr(g, Instr(LABEL, Some(l), None, None)) == Ok(Append(g, [LabelAt(l)]))
  {
  }

  /** A RET always translates. */
  lemma RetOk(g: Gen)
    ensures EmitCode(g, [Instr(RET, None, None, None)]).Ok?
  {
    var c := [Instr(RET, None, None, None)];
    assert c[..0] == [];
    assert EmitCode(g, c) == EmitRet(g, c[0]);
  }

  /** A run ending in a named LABEL leaves that label as the text's last line. */
  lemma CodeEndsInLabel(g: Gen, c: seq<Instr>, l: string)
    requires |c| > 0 && c[|c| - 1] == Instr(LABEL, Some(l), None, None)
    requires EmitCode(g, c[..|c| - 1]).Ok?
    ensures EmitCode(g, c).Ok?
    ensures var t := EmitCode(g, c).value.text; |t| > 0 && t[|t| - 1] == LabelAt(l)
  {
    var g1 := EmitCode(g, c[..|c| - 1]).value;
    NamedLabel(g1, l);
    assert EmitCode(g, c) == EmitInstr(g1, c[|c| - 1]);
  }

  /** A function without parameters whose code is a RET followed by a
      named label: its body translates and ends at that label. */
  lemma RetThenLabelBody(g: Gen, f: Function, l: string)
    requires f.params == [] && f.code == [Instr(RET, None, None, None), Instr(LABEL, Some(l), None, None)]
    ensures EmitBody(g, f).Ok?
    ensures var t := EmitBody(g, f).value.text; |t| > 0 && t[|t| - 1] == LabelAt(l)
  {
    RetThenLabelScan(f, l);
    var g3 := BodyIsCode(g, f);
    assert EmitCode(g3, f.code[..1]).Ok? by {
      assert f.code[..1] == [Instr(RET, None, None, None)];
      RetOk(g3);
    }
    CodeEndsInLabel(g3, f.code, l);
  }

  /** The body is its code's translation from the state `BodyStart` names. */
  lemma BodyIsCode(g: Gen, f: Function) returns (g3: Gen)
    requires WellNamed(f) && 4 * |ScanNames(f)| + 8 <= Int32.MAX - 15
    ensures EmitBody(g, f) == EmitCode(g3, f.code)
  {
    g3 := BodyStart(g, f);
  }

  /** From any state, the function's body translates and ends at `L:`. */
  lemma EarlyReturnBody(g: Gen)
    ensures EmitBody(g, EarlyReturn).Ok?
    ensures var t := EmitBody(g, EarlyReturn).value.text; |t| > 0 && t[|t| - 1] == LabelAt("L")
  {
    RetThenLabelBody(g, EarlyReturn, "L");
  }

  /** As written, the early RET suppresses the fallback return, so the
      function's text ends at the label and control runs into whatever
      follows it. */
  lemma EarlyReturnFallsThrough()
    ensures EmitFunction(Fresh, EarlyReturn).Ok?
    ensures !EndsInReturn(EmitFunction(Fresh, EarlyReturn).value.text)
  {
    EarlyReturnBody(Fresh);
    assert HasRet(EarlyReturn.code) by {
      assert EarlyReturn.code[0].op == RET;
    }
  }

  /** Corrected, the same function ends in the fallback return. */
  lemma EarlyReturnCorrected()
    ensures EmitFunctionCorrected(Fresh, EarlyReturn).Ok?
    ensures EndsInReturn(EmitFunctionCorrected(Fresh, EarlyReturn).value.text)
  {
    EarlyReturnBody(Fresh);
    FunctionEnds(Fresh, EarlyReturn);
  }
}
