/** What the backend's listing promises beyond frame safety: calls take the
    arguments the TAC queued, every label is defined once, every function
    ends in a return, the `.data` segment reserves every global; and the
    inputs on which the backend as written goes wrong. */
module MipsProps {
  import opened Common
  import Int32
  import opened Tac
  import opened TacFacts
  import opened Mips
  import opened MipsGen
  import opened MipsLayout
  import opened MipsFrame

  // ---------------------------------------------------------------------
  // Argument counts and the PARAM queue
  // ---------------------------------------------------------------------

  /** A call count the TAC generator writes (the decimal text of a
      non-negative int) reads back as itself, both in the backend and in the
      TAC's own reading. */
  lemma CallCountDecimal(n: int)
    requires 0 <= n <= Int32.MAX
    ensures CallCount(Some(IntToString(n))) == n
    ensures Argc(Some(IntToString(n))) == n
  {
    Int32.ParseIntToString(n);
  }

  /** The backend's count and the TAC's agree on a null count and on every
      in-range decimal literal. */
  lemma CallCountAgrees(b: Operand)
    requires b.None? || (IsIntLit(b.value) && Int32.InRange(LitValue(b.value)))
    ensures CallCount(b) == Argc(b)
  {
  }

  /** Where the counts agree, the backend's queue is the TAC's queue: each
      call consumes exactly the PARAM operands the TAC meant for it. */
  lemma {:induction false} QueueAgrees(q: seq<Operand>, c: seq<Instr>)
    requires forall k :: 0 <= k < |c| && c[k].op == CALL ==> CallCount(c[k].b) == Argc(c[k].b)
    ensures BackendQueueAfter(q, c) == QueueAfter(q, c)
  {
    if |c| > 0 {
      var init := c[..|c| - 1];
      assert forall k :: 0 <= k < |init| ==> init[k] == c[k];
      QueueAgrees(q, init);
    }
  }

  // ---------------------------------------------------------------------
  // Labels
  // ---------------------------------------------------------------------

  /** The labels a run defines: every named TAC label, and the null label
      exactly when a null TAC label occurs and it was not already defined;
      the null flag ends up set iff it was set or a null label occurred. */
  lemma {:induction false} CodeDefsSpec(d: bool, c: seq<Instr>)
    ensures NullAfter(d, c) <==> d || None in Labels(c)
    ensures forall x :: x in CodeDefs(d, c) <==>
      Some(x) in Labels(c) || (x == NULL_LABEL && !d && None in Labels(c))
  {
    if |c| > 0 {
      var init := c[..|c| - 1];
      CodeDefsSpec(d, init);
      assert Labels(c) == Labels(init) + LabelDef(c[|c| - 1]);
    }
  }

  /** The non-null labels of a run are distinct and none is spelled like
      the null label. */
  predicate LabelsDistinct(c: seq<Instr>) {
    var ls := Labels(c);
    && (forall i, j :: 0 <= i < j < |ls| && ls[i].Some? ==> ls[i] != ls[j])
    && Some(NULL_LABEL) !in ls
  }

  lemma LabelsDistinctInit(c: seq<Instr>)
    requires |c| > 0 && LabelsDistinct(c)
    ensures LabelsDistinct(c[..|c| - 1])
    ensures c[|c| - 1].op == LABEL && c[|c| - 1].a.Some? ==> c[|c| - 1].a !in Labels(c[..|c| - 1])
  {
    var init := c[..|c| - 1];
    var ls := Labels(c);
    assert ls == Labels(init) + LabelDef(c[|c| - 1]);
    assert forall k :: 0 <= k < |Labels(init)| ==> Labels(init)[k] == ls[k];
    if c[|c| - 1].op == LABEL && c[|c| - 1].a.Some? {
      forall k | 0 <= k < |Labels(init)|
        ensures Labels(init)[k] != c[|c| - 1].a
      {
        assert ls[|ls| - 1] == c[|c| - 1].a;
      }
    }
  }

  /** With distinct TAC labels the listing defines no label twice, however
      many null labels the code holds: the null flag makes the second and
      later ones comments. */
  lemma {:induction false} DefsDistinct(d: bool, c: seq<Instr>)
    requires LabelsDistinct(c)
    ensures Distinct(CodeDefs(d, c))
    ensures d ==> NULL_LABEL !in CodeDefs(d, c)
  {
    if |c| > 0 {
      var init := c[..|c| - 1];
      var i := c[|c| - 1];
      LabelsDistinctInit(c);
      DefsDistinct(d, init);
      CodeDefsSpec(d, init);
      var added := LabelDefs(NullAfter(d, init), i);
      assert CodeDefs(d, c) == CodeDefs(d, init) + added;
      assert Labels(c) == Labels(init) + LabelDef(i);
      if |added| == 1 {
        assert added[0] !in CodeDefs(d, init);
      }
    }
  }

  lemma DistinctCons(x: string, s: seq<string>)
    requires Distinct(s) && x !in s
    ensures Distinct([x] + s)
  {
    var ds := [x] + s;
    forall i, j | 0 <= i < j < |ds| ensures ds[i] != ds[j] {
      assert ds[j] == s[j - 1];
      if i > 0 {
        assert ds[i] == s[i - 1];
      }
    }
  }

  /** A whole function: its own label first, then distinct code labels, none
      equal to the function's name, so the assembler sees no label twice. */
  lemma FunctionDefsDistinct(g: Gen, f: Function, g': Gen)
    requires EmitBody(g, f) == Ok(g') && WellNamed(f) && NoStringLoads(f)
    requires 4 * |ScanNames(f)| + 8 <= Int32.MAX - 15
    requires LabelsDistinct(f.code) && Some(f.name) !in Labels(f.code) && f.name != NULL_LABEL
    ensures g.text <= g'.text && Distinct(Defs(g'.text[|g.text|..]))
  {
    FrameSafe(g, f, g');
    DefsDistinct(false, f.code);
    CodeDefsSpec(false, f.code);
    DistinctCons(f.name, CodeDefs(false, f.code));
  }

  // ---------------------------------------------------------------------
  // Every function ends in a return
  // ---------------------------------------------------------------------

  /** The last two lines of a text: the return jump and the blank line. */
  predicate EndsInReturn(text: seq<Asm>) {
    |text| >= 2 && text[|text| - 2] == Jr(RA) && text[|text| - 1] == Blank
  }

  lemma RetEnds(g: Gen, i: Instr)
    requires EmitRet(g, i).Ok?
    ensures EndsInReturn(EmitRet(g, i).value.text)
  {
  }

  /** A run whose last instruction is a RET leaves the text ending in the
      return jump. */
  lemma CodeEnds(g: Gen, c: seq<Instr>)
    requires EndsInRet(c) && EmitCode(g, c).Ok?
    ensures EndsInReturn(EmitCode(g, c).value.text)
  {
    var g1 := EmitCode(g, c[..|c| - 1]).value;
    RetEnds(g1, c[|c| - 1]);
  }

  /** The corrected `emitFunction` never lets control run off the end of a
      function into the next one: its text always ends in `jr $ra`. */
  lemma FunctionEnds(g: Gen, f: Function)
    requires EmitFunctionCorrected(g, f).Ok?
    ensures EndsInReturn(EmitFunctionCorrected(g, f).value.text)
  {
    if EndsInRet(f.code) {
      BodyEnds(g, f);
    }
  }

  /** `emitFunction` as written ends in `jr $ra` when the code has no RET
      (the fallback is appended) or ends in one; code with a RET elsewhere
      and something after it is the case it misses. */
  lemma FunctionEndsAsWritten(g: Gen, f: Function)
    requires EmitFunction(g, f).Ok?
    requires EndsInRet(f.code) || !HasRet(f.code)
    ensures EndsInReturn(EmitFunction(g, f).value.text)
  {
    if EndsInRet(f.code) {
      assert f.code[|f.code| - 1].op == RET;
      BodyEnds(g, f);
    }
  }

  lemma BodyEnds(g: Gen, f: Function)
    requires EndsInRet(f.code) && EmitBody(g, f).Ok?
    ensures EndsInReturn(EmitBody(g, f).value.text)
  {
    var g1 := AllocAll(Reset(g), ScanNames(f));
    var frame := FrameBytes(|g1.slots|);
    var header := (if f.name == "main" then [Globl("main")] else []) + [LabelAt(f.name)];
    var g2 := Append(g1.(frame := frame), header + Prologue(frame));
    var g3 := StoreParams(g2, f.params, 0).value;
    CodeEnds(g3, f.code);
  }

  // ---------------------------------------------------------------------
  // The whole program
  // ---------------------------------------------------------------------

  /** `.data` reserves every global, in order: alignment, its label, and its
      size in bytes. */
  lemma {:induction false} GlobalDataSpec(gs: seq<Global>)
    ensures |GlobalData(gs)| == 3 * |gs|
    ensures forall k :: 0 <= k < |gs| ==>
      GlobalData(gs)[3 * k] == Align2 &&
      GlobalData(gs)[3 * k + 1] == DataLabel(gs[k].name) &&
      GlobalData(gs)[3 * k + 2] == Space(gs[k].bytes)
  {
    if |gs| > 0 {
      var init := gs[..|gs| - 1];
      GlobalDataSpec(init);
      assert forall k :: 0 <= k < |init| ==> init[k] == gs[k];
    }
  }

  /** A global's label is defined in `.data` exactly when it is declared. */
  lemma {:induction false} GlobalDefined(gs: seq<Global>, name: string)
    ensures DataLabel(name) in GlobalData(gs) <==> exists k :: 0 <= k < |gs| && gs[k].name == name
  {
    if |gs| > 0 {
      var init := gs[..|gs| - 1];
      var last := gs[|gs| - 1];
      GlobalDefined(init, name);
      assert GlobalData(gs) == GlobalData(init) + [Align2, DataLabel(last.name), Space(last.bytes)];
      if exists k :: 0 <= k < |gs| && gs[k].name == name {
        var k :| 0 <= k < |gs| && gs[k].name == name;
        if k < |init| {
          assert init[k] == gs[k];
        }
      }
      if exists k :: 0 <= k < |init| && init[k].name == name {
        var k :| 0 <= k < |init| && init[k].name == name;
        assert gs[k] == init[k];
      }
    }
  }

  /** A function the backend as written can lay out: names where it stores,
      no string literal handed to `emitLoad`, and a frame whose size does not
      overflow. */
  predicate Compilable(f: Function) {
    WellNamed(f) && NoStringLoads(f) && 4 * |ScanNames(f)| + 8 <= Int32.MAX - 15
  }

  lemma FunctionGrows(g: Gen, f: Function)
    requires Compilable(f) && EmitFunction(g, f).Ok?
    ensures g.text <= EmitFunction(g, f).value.text && g.data <= EmitFunction(g, f).value.data
    ensures PoolInv(g) ==> PoolInv(EmitFunction(g, f).value)
  {
    var g1 := EmitBody(g, f).value;
    assert g.text <= g1.text && g.data <= g1.data && (PoolInv(g) ==> PoolInv(g1)) by {
      FrameSafe(g, f, g1);
    }
  }

  lemma {:induction false} FunctionsGrow(g: Gen, fs: seq<Function>)
    requires forall k :: 0 <= k < |fs| ==> Compilable(fs[k])
    requires EmitFunctions(g, fs).Ok?
    ensures g.text <= EmitFunctions(g, fs).value.text && g.data <= EmitFunctions(g, fs).value.data
    ensures PoolInv(g) ==> PoolInv(EmitFunctions(g, fs).value)
  {
    if |fs| > 0 {
      var init := fs[..|fs| - 1];
      assert forall k :: 0 <= k < |init| ==> init[k] == fs[k];
      FunctionsGrow(g, init);
      FunctionGrows(EmitFunctions(g, init).value, fs[|fs| - 1]);
    }
  }

  /** The listing's `.data` segment opens with one reservation per global,
      in declaration order: alignment, the global's label, and its size. */
  lemma ProgramShape(p: Program)
    requires EmitProgram(p).Ok?
    ensures var data := EmitProgram(p).value.0;
      && |data| >= 1 + 3 * |p.globals| && data[0] == DataSegment
      && forall k :: 0 <= k < |p.globals| ==>
           data[1 + 3 * k] == Align2 && data[2 + 3 * k] == DataLabel(p.globals[k].name)
           && data[3 + 3 * k] == Space(p.globals[k].bytes)
  {
    var data := EmitProgram(p).value.0;
    var pre := [DataSegment] + GlobalData(p.globals);
    GlobalDataSpec(p.globals);
    assert forall j :: 0 <= j < |pre| ==> data[j] == pre[j];
    forall k | 0 <= k < |p.globals|
      ensures data[1 + 3 * k] == Align2 && data[2 + 3 * k] == DataLabel(p.globals[k].name)
      ensures data[3 + 3 * k] == Space(p.globals[k].bytes)
    {
      assert pre[1 + 3 * k] == GlobalData(p.globals)[3 * k];
      assert pre[2 + 3 * k] == GlobalData(p.globals)[3 * k + 1];
      assert pre[3 + 3 * k] == GlobalData(p.globals)[3 * k + 2];
    }
  }
}
