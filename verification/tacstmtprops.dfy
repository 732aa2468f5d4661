/** What the IR generator's statement code looks like (ir/TacGen.java):
    every statement lowers to code that computes the temporaries it takes
    once each and in order, leaves the PARAM queue as it found it, defines
    each label it allocated at most once and jumps only to labels it defines
    itself. Per function the temporaries are t0, t1, ... each computed once;
    across the program, whose label counter is never reset, no label is
    defined twice. */
module TacStmtProps {
  import opened Common
  import opened Scopes
  import opened Ast
  import opened Tac
  import opened GenState
  import opened TacFacts
  import opened TacGen
  import opened CodeShape
  import opened CodeFlow
  import opened TacGenProps

  /** An optional expression lowered for its effect is expression code. */
  lemma OptFacts(t: Table, sc: nat, g: Gen, e: Option<Expr>)
    requires InScope(t, sc)
    ensures ExprCode(g, LowerOpt(t, sc, g, e), [])
  {
    if e.Some? {
      ExprFacts(t, sc, g, e.value);
    } else {
      ExprCodeNone(g);
    }
  }

  /** Declarators from `i` on: initialisers and MOVs, no label, no jump. */
  lemma {:induction false} DeclFacts(t: Table, sc: nat, g: Gen, d: VarDecl, i: nat)
    requires InScope(t, sc) && i <= |d.decls|
    ensures StmtCode(g, LowerDecl(t, sc, g, d, i))
    decreases |d.decls| - i
  {
    if i == |d.decls| {
      StmtNone(g);
    } else {
      var dc := d.decls[i];
      var v := ResolveVar(t, sc, dc.name);
      if v.None? || dc.init.None? {
        DeclFacts(t, sc, g, d, i + 1);
      } else {
        var (rhs, g1) := LowerExpr(t, sc, g, dc.init.value);
        ExprFacts(t, sc, g, dc.init.value);
        StmtOfExpr(g, g1);
        if sc == Globals(t) || IsGlobalVar(t, sc, dc.name) || |v.value.dims| > 0 {
          DeclFacts(t, sc, g1, d, i + 1);
          StmtJoin(g, g1, LowerDecl(t, sc, g1, d, i + 1));
        } else {
          var h := Put(g1, Instr(MOV, Some(rhs), None, Some(dc.name)));
          StmtQuiet(g1, Instr(MOV, Some(rhs), None, Some(dc.name)));
          DeclFacts(t, sc, h, d, i + 1);
          StmtJoin(g, g1, h);
          StmtJoin(g, h, LowerDecl(t, sc, h, d, i + 1));
        }
      }
    }
  }

  /** `return` and `return e`: the value's code, then RET. */
  lemma ReturnFacts(t: Table, sc: nat, g: Gen, s: Stmt)
    requires InScope(t, sc) && s.Return?
    ensures StmtCode(g, LowerStmt(t, sc, g, s))
  {
    if s.value.None? {
      StmtQuiet(g, Instr(RET, None, None, None));
    } else {
      var (v, g1) := LowerExpr(t, sc, g, s.value.value);
      ExprFacts(t, sc, g, s.value.value);
      StmtOfExpr(g, g1);
      StmtQuiet(g1, Instr(RET, Some(v), None, None));
      StmtJoin(g, g1, Put(g1, Instr(RET, Some(v), None, None)));
    }
  }

  /** Every statement lowers to statement code. */
  lemma {:induction false} StmtFacts(t: Table, sc: nat, g: Gen, s: Stmt)
    requires InScope(t, sc)
    ensures StmtCode(g, LowerStmt(t, sc, g, s))
    decreases s, 1
  {
    match s
    case Decl(d) => DeclFacts(t, sc, g, d, 0);
    case ExprStmt(e) =>
      OptFacts(t, sc, g, e);
      StmtOfExpr(g, LowerOpt(t, sc, g, e));
    case Return(_) => ReturnFacts(t, sc, g, s);
    case If(_, _, _) =>
      assert LowerStmt(t, sc, g, s) == LowerIf(t, sc, g, s);
      IfFacts(t, sc, g, s);
    case While(_, _) => WhileFacts(t, sc, g, s);
    case For(_, _, _, _) =>
      assert LowerStmt(t, sc, g, s) == LowerFor(t, sc, g, s);
      ForFacts(t, sc, g, s);
    case Nested(b) => BlockFacts(t, sc, g, b);
  }

  /** `while`: LABEL top; the condition; IFZ to the end; the body; GOTO top;
      LABEL end. Both labels are the two the loop allocated first. */
  lemma WhileFacts(t: Table, sc: nat, g: Gen, s: Stmt)
    requires InScope(t, sc) && s.While?
    ensures StmtCode(g, LowerStmt(t, sc, g, s))
    decreases s, 0
  {
    var (top, g1) := NewLabel(g, "while");
    var (out, g2) := NewLabel(g1, "endwhile");
    var h1 := Put(g2, Label(top));
    var (v, g3) := LowerExpr(t, sc, h1, s.cond);
    var h3 := Put(g3, IfZero(v, out));
    var g4 := LowerStmt(t, sc, h3, s.body);
    assert LowerStmt(t, sc, g, s) == Put(Put(g4, Goto(top)), Label(out));
    LabelNumberOf("while", g.lbl);
    LabelNumberOf("endwhile", g.lbl + 1);
    ExprFacts(t, sc, h1, s.cond);
    StmtFacts(t, sc, h3, s.body);
    WhileShape(g, g2, g3, g4, top, out, v);
  }

  /** `if`: the condition; IFZ to `else`; the then-branch; with an else
      branch GOTO `endif`, LABEL `else`, the else-branch, LABEL `endif`;
      without one just LABEL `else`. Both labels are allocated either way. */
  lemma IfFacts(t: Table, sc: nat, g: Gen, s: Stmt)
    requires InScope(t, sc) && s.If?
    ensures StmtCode(g, LowerIf(t, sc, g, s))
    decreases s, 0
  {
    var (els, g1) := NewLabel(g, "else");
    var (end, g2) := NewLabel(g1, "endif");
    var (v, g3) := LowerExpr(t, sc, g2, s.cond);
    var h3 := Put(g3, IfZero(v, els));
    var g4 := LowerStmt(t, sc, h3, s.thenS);
    LabelNumberOf("else", g.lbl);
    LabelNumberOf("endif", g.lbl + 1);
    ExprFacts(t, sc, g2, s.cond);
    StmtFacts(t, sc, h3, s.thenS);
    if s.elseS.Some? {
      var h5 := Put(Put(g4, Goto(end)), Label(els));
      var g5 := LowerStmt(t, sc, h5, s.elseS.value);
      assert LowerIf(t, sc, g, s) == Put(g5, Label(end));
      StmtFacts(t, sc, h5, s.elseS.value);
      IfElseShape(g, g2, g3, g4, g5, els, end, v);
    } else {
      assert LowerIf(t, sc, g, s) == Put(g4, Label(els));
      IfThenShape(g, g2, g3, g4, els, v);
    }
  }

  /** The part of a `for` between LABEL top and the body: the test and IFZ to
      the end when there is a test, nothing otherwise. */
  lemma ForTestFacts(t: Table, sc: nat, g: Gen, s: Stmt, out: string) returns (g': Gen)
    requires InScope(t, sc) && s.For?
    ensures g' == if s.test.Some? then
        var (v, h) := LowerExpr(t, sc, g, s.test.value);
        Put(h, IfZero(v, out))
      else g
    ensures Stretch(g, g', {}, {Some(out)}, {})
  {
    if s.test.Some? {
      var (v, h) := LowerExpr(t, sc, g, s.test.value);
      g' := Put(h, IfZero(v, out));
      ExprFacts(t, sc, g, s.test.value);
      StretchExpr(g, h);
      StretchIfZero(h, v, out);
      StretchJoin(g, h, g', {}, {}, {}, {}, {Some(out)}, {});
    } else {
      g' := g;
      StretchNone(g, g, {Some(out)});
    }
  }

  /** `for`: the initialiser; LABEL top; the test with IFZ to the end when
      present; the body; the step; GOTO top; LABEL end. */
  lemma ForFacts(t: Table, sc: nat, g: Gen, s: Stmt)
    requires InScope(t, sc) && s.For?
    ensures StmtCode(g, LowerFor(t, sc, g, s))
    decreases s, 0
  {
    var g1 := LowerOpt(t, sc, g, s.init);
    var (top, g2) := NewLabel(g1, "for");
    var (out, g3) := NewLabel(g2, "endfor");
    LabelNumberOf("for", g1.lbl);
    LabelNumberOf("endfor", g1.lbl + 1);
    OptFacts(t, sc, g, s.init);
    var g5 := ForTestFacts(t, sc, Put(g3, Label(top)), s, out);
    var g6 := LowerStmt(t, sc, g5, s.body);
    StmtFacts(t, sc, g5, s.body);
    var g7 := LowerOpt(t, sc, g6, s.step);
    OptFacts(t, sc, g6, s.step);
    assert LowerFor(t, sc, g, s) == Put(Put(g7, Goto(top)), Label(out));
    ForShape(g, g1, g3, g5, g6, g7, top, out);
  }

  lemma BlockFacts(t: Table, sc: nat, g: Gen, b: Block)
    requires InScope(t, sc)
    ensures StmtCode(g, LowerBlock(t, sc, g, b))
    decreases b, 2
  {
    StmtsFacts(t, BlockScope(t, sc, b), g, b, 0);
  }

  lemma {:induction false} StmtsFacts(t: Table, sc: nat, g: Gen, b: Block, i: nat)
    requires InScope(t, sc) && i <= |b.stmts|
    ensures StmtCode(g, LowerStmts(t, sc, g, b, i))
    decreases b, 1, |b.stmts| - i
  {
    if i == |b.stmts| {
      StmtNone(g);
    } else {
      assert b.stmts[i] in b.stmts;
      var g1 := LowerStmt(t, sc, g, b.stmts[i]);
      StmtFacts(t, sc, g, b.stmts[i]);
      StmtsFacts(t, sc, g1, b, i + 1);
      StmtJoin(g, g1, LowerStmts(t, sc, g1, b, i + 1));
    }
  }

  // ---------------------------------------------------------------------
  // Functions and programs
  // ---------------------------------------------------------------------

  /** A lowered function: its temporaries are t0, t1, ... each computed once
      and in order (the counter restarts per function), it leaves the PARAM
      queue as it found it, its labels are distinct and numbered from the
      counter it started with up to the one it returns, and every jump
      targets one of its own labels. */
  lemma FunctionFacts(t: Table, lbl: nat, f: FuncDecl)
    requires Valid(t)
    ensures var (fn, l) := LowerFunction(t, lbl, f);
      && (forall k :: 0 <= k < |TempDefs(fn.code)| ==> TempDefs(fn.code)[k] == TempName(k))
      && Pushes(fn.code, [])
      && LabelsIn(fn.code, lbl, l)
      && Closed(fn.code)
  {
    var g0 := Gen(0, lbl, []);
    var g := LowerBlock(t, Globals(t), g0, f.body);
    BlockFacts(t, Globals(t), g0, f.body);
    assert Added(g0, g) == g.code;
    TempNamesAt(0, g.tmp);
  }

  /** The code of a sequence of functions, back to back. */
  function AllCode(fs: seq<Tac.Function>): (c: seq<Instr>) {
    if |fs| == 0 then [] else fs[0].code + AllCode(fs[1..])
  }

  /** The functions from declaration `i` on: each is closed, and together
      they define distinct labels numbered from `lbl` up to the counter
      returned, because the label counter is threaded through and never
      reset. */
  lemma {:induction false} FunctionsFacts(t: Table, p: Ast.Program, i: nat, lbl: nat)
    requires Valid(t) && i <= |p.decls|
    ensures var (fs, l) := LowerFunctions(t, p, i, lbl);
      && LabelsIn(AllCode(fs), lbl, l)
      && (forall k :: 0 <= k < |fs| ==> Closed(fs[k].code) && Pushes(fs[k].code, []))
    decreases |p.decls| - i
  {
    if i == |p.decls| {
    } else if p.decls[i].Function? {
      var (fn, l1) := LowerFunction(t, lbl, p.decls[i].f);
      var (fs, l2) := LowerFunctions(t, p, i + 1, l1);
      FunctionFacts(t, lbl, p.decls[i].f);
      FunctionsFacts(t, p, i + 1, l1);
      var all := [fn] + fs;
      assert all[1..] == fs;
      LabelsInJoin(fn.code, AllCode(fs), lbl, l1, l2);
      assert forall k :: 1 <= k < |all| ==> all[k] == fs[k - 1];
    } else {
      FunctionsFacts(t, p, i + 1, lbl);
    }
  }

  /** A lowered program: every label defined anywhere in it is a named
      label, no label is defined twice across all functions, and every
      function's jumps stay within its own labels. */
  lemma ProgramFacts(t: Table, p: Ast.Program)
    requires Valid(t)
    ensures var c := AllCode(LowerProgram(t, p).functions);
      && (forall k :: 0 <= k < |Labels(c)| ==> Labels(c)[k].Some?)
      && (forall i, j :: 0 <= i < j < |Labels(c)| ==> Labels(c)[i] != Labels(c)[j])
    ensures forall k :: 0 <= k < |LowerProgram(t, p).functions| ==> Closed(LowerProgram(t, p).functions[k].code)
  {
    var (fs, l) := LowerFunctions(t, p, 0, 0);
    FunctionsFacts(t, p, 0, 0);
    LabelsInNames(AllCode(fs), 0, l);
  }
}
