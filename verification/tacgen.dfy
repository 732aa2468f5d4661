/** The IR generator (ir/TacGen.java): lowers a collected program to
    three-address code.

    A node is lowered in the scope of its nearest enclosing block, which the
    symbol-collection pass recorded on the block; outside every block that is
    the global scope. Expressions yield the operand text holding their value:
    literal text, a variable name, or a temporary. The walk threads a `Gen`
    (temporary counter, label counter, code of the current function). */
module TacGen {
  import opened Common
  import opened Types
  import opened Symbols
  import opened Scopes
  import opened Ast
  import opened Tac
  import opened GenState
  import Int32

  /** The table after collection, and a scope of it to lower in. */
  predicate InScope(t: Table, sc: nat) {
    Valid(t) && sc < |t.scopes|
  }

  /** resolveVar: the variable a name resolves to from `sc`, if a variable. */
  function ResolveVar(t: Table, sc: nat, x: string): (r: Option<VarSymbol>)
    requires InScope(t, sc)
    ensures r.Some? <==> Resolve(t.scopes, sc, x).Some? && Resolve(t.scopes, sc, x).value.Var?
    ensures r.Some? ==> Resolve(t.scopes, sc, x) == Some(Var(r.value))
  {
    match Resolve(t.scopes, sc, x)
    case Some(Var(v)) => Some(v)
    case _ => None
  }

  /** resolveFunc: the function a name resolves to from `sc`, if a function. */
  function ResolveFunc(t: Table, sc: nat, x: string): (r: Option<FuncSymbol>)
    requires InScope(t, sc)
    ensures r.Some? <==> Resolve(t.scopes, sc, x).Some? && Resolve(t.scopes, sc, x).value.Func?
    ensures r.Some? ==> Resolve(t.scopes, sc, x) == Some(Func(r.value))
  {
    match Resolve(t.scopes, sc, x)
    case Some(Func(f)) => Some(f)
    case _ => None
  }

  /** `v != null && isGlobal(v)`: the name resolves to a variable, and the
      binding found is the global scope's own one (the source compares
      symbol identity with the global scope's binding). */
  predicate IsGlobalVar(t: Table, sc: nat, x: string)
    requires InScope(t, sc)
  {
    ResolveVar(t, sc, x).Some? && ResolveScope(t.scopes, sc, x) == Some(Globals(t))
  }

  /** A local variable or parameter that shadows a global one is not global. */
  lemma ShadowedIsLocal(t: Table, sc: nat, x: string)
    requires InScope(t, sc) && sc != Globals(t)
    requires x in t.scopes[sc].symbols && t.scopes[sc].symbols[x].Var?
    ensures ResolveVar(t, sc, x).Some? && !IsGlobalVar(t, sc, x)
  {
  }

  /** The dimensions an element access is linearised with: the variable's,
      or a single dimension as long as the index list when the name does
      not resolve to a variable. */
  function DimsFor(t: Table, sc: nat, x: string, n: nat): (dims: seq<int>)
    requires InScope(t, sc)
    ensures ResolveVar(t, sc, x).None? ==> dims == [n]
  {
    var v := ResolveVar(t, sc, x);
    if v.Some? then v.value.dims else [n]
  }

  /** A call yields a value unless its callee resolves to a VOID function. */
  predicate ReturnsValue(t: Table, sc: nat, f: string)
    requires InScope(t, sc)
  {
    var fs := ResolveFunc(t, sc, f);
    fs.None? || fs.value.ty != VOID
  }

  /** The opcode of a chain link; each level's visitor tests the token
      against its first operators and falls back to the last one. */
  function ChainOp(l: Level, op: BinOp): (o: Op)
    ensures IsBinary(o)
  {
    match l
    case OrLevel => OR
    case AndLevel => AND
    case EqLevel => if op == Eq then EQ else NEQ
    case RelLevel => if op == Lt then LT else if op == Le then LE else if op == Gt then GT else GE
    case AddLevel => if op == Add then ADD else SUB
    case MulLevel => if op == Mul then MUL else if op == Div then DIV else MOD
  }

  /** A well-formed link (its operator belongs to the chain's level) lowers to
      the opcode of the same name. */
  lemma ChainOpFaithful(l: Level, op: BinOp)
    requires LevelOf(op) == l
    ensures ChainOp(l, op) == match op
      case Or => OR   case And => AND
      case Eq => EQ   case Ne => NEQ
      case Lt => LT   case Le => LE   case Gt => GT   case Ge => GE
      case Add => ADD case Sub => SUB
      case Mul => MUL case Div => DIV case Mod => MOD
  {
  }

  /** A bare name as a value: a global variable is loaded from offset 0 into
      a new temporary; anything else is used by name. */
  function ReadName(t: Table, sc: nat, g: Gen, x: string): (r: (string, Gen))
    requires InScope(t, sc)
    ensures Extends(g, r.1) && r.1.lbl == g.lbl
  {
    if IsGlobalVar(t, sc, x) then
      var (tmp, g1) := NewTemp(g);
      (tmp, Put(g1, Instr(LOAD, Some(x), Some("0"), Some(tmp))))
    else (x, g)
  }

  /** The index list of an element access or of an assignment's target. */
  function IndexList(e: Expr): seq<Expr>
    requires e.Elem? || e.Assign?
  {
    if e.Elem? then e.indices else e.target.indices
  }

  /** Expression lowering: the operand holding the value, and the state after
      the code computing it. Nothing but temporaries and code is added. */
  function LowerExpr(t: Table, sc: nat, g: Gen, e: Expr): (r: (string, Gen))
    requires InScope(t, sc)
    ensures Extends(g, r.1) && r.1.lbl == g.lbl
    decreases e, 2
  {
    match e
    case IntLit(s) => (s, g)
    case CharLit(s) => (s, g)
    case StrLit(s) => (s, g)
    case BoolLit(b) => (if b then "1" else "0", g)
    case Name(x) => ReadName(t, sc, g, x)
    case Elem(x, idx) => if |idx| == 0 then ReadName(t, sc, g, x) else LowerElem(t, sc, g, e)
    case Call(_, _) => LowerCall(t, sc, g, e)
    case Paren(x) => LowerExpr(t, sc, g, x)
    case Not(_) => LowerUnary(t, sc, g, e)
    case Neg(_) => LowerUnary(t, sc, g, e)
    case Chain(_, _, _) => LowerChain(t, sc, g, e)
    case Assign(_, _) => LowerAssign(t, sc, g, e)
  }

  /** An element read: the indices, the byte offset, then one LOAD. */
  function LowerElem(t: Table, sc: nat, g: Gen, e: Expr): (r: (string, Gen))
    requires InScope(t, sc) && e.Elem? && |e.indices| > 0
    ensures Extends(g, r.1) && r.1.lbl == g.lbl
    decreases e, 1
  {
    var (vals, g1) := LowerIndices(t, sc, g, e, 0);
    var (off, g2) := OffsetBytes(g1, DimsFor(t, sc, e.id, |vals|), vals);
    var (tmp, g3) := NewTemp(g2);
    (tmp, Put(g3, Instr(LOAD, Some(e.id), Some(off), Some(tmp))))
  }

  /** A call: the arguments, then CALL with their count; a void callee's
      value reads as "0". */
  function LowerCall(t: Table, sc: nat, g: Gen, e: Expr): (r: (string, Gen))
    requires InScope(t, sc) && e.Call?
    ensures Extends(g, r.1) && r.1.lbl == g.lbl
    decreases e, 1
  {
    var (_, g1) := LowerArgs(t, sc, g, e, 0);
    var argc := IntToString(|e.args|);
    if ReturnsValue(t, sc, e.callee) then
      var (tmp, g2) := NewTemp(g1);
      (tmp, Put(g2, Instr(CALL, Some(e.callee), Some(argc), Some(tmp))))
    else ("0", Put(g1, Instr(CALL, Some(e.callee), Some(argc), None)))
  }

  /** `!x` is NOT; `-x` is SUB from "0". */
  function LowerUnary(t: Table, sc: nat, g: Gen, e: Expr): (r: (string, Gen))
    requires InScope(t, sc) && (e.Not? || e.Neg?)
    ensures Extends(g, r.1) && r.1.lbl == g.lbl
    decreases e, 1
  {
    var (v, g1) := LowerExpr(t, sc, g, e.operand);
    var (tmp, g2) := NewTemp(g1);
    if e.Not? then (tmp, Put(g2, Instr(NOT, Some(v), None, Some(tmp))))
    else (tmp, Put(g2, Instr(SUB, Some("0"), Some(v), Some(tmp))))
  }

  /** A chain of one precedence level, folded left to right. */
  function LowerChain(t: Table, sc: nat, g: Gen, e: Expr): (r: (string, Gen))
    requires InScope(t, sc) && e.Chain?
    ensures Extends(g, r.1) && r.1.lbl == g.lbl
    decreases e, 1
  {
    var (v, g1) := LowerExpr(t, sc, g, e.first);
    LowerLinks(t, sc, g1, e, 0, v)
  }

  /** An assignment: the right-hand side first, then STORE to a global
      scalar, MOV to a local scalar, or the offset and STORE to an element.
      Its value is the right-hand side's. */
  function LowerAssign(t: Table, sc: nat, g: Gen, e: Expr): (r: (string, Gen))
    requires InScope(t, sc) && e.Assign?
    ensures Extends(g, r.1) && r.1.lbl == g.lbl
    decreases e, 1
  {
    var lv := e.target;
    var (v, g1) := LowerExpr(t, sc, g, e.rhs);
    if |lv.indices| == 0 then
      if IsGlobalVar(t, sc, lv.id) then (v, Put(g1, Instr(STORE, Some(v), Some(lv.id), Some("0"))))
      else (v, Put(g1, Instr(MOV, Some(v), None, Some(lv.id))))
    else
      var (vals, g2) := LowerIndices(t, sc, g1, e, 0);
      var (off, g3) := OffsetBytes(g2, DimsFor(t, sc, lv.id, |vals|), vals);
      (v, Put(g3, Instr(STORE, Some(v), Some(lv.id), Some(off))))
  }

  /** Argument i of call `e`: lowered, then pushed with PARAM at once. */
  function LowerArg(t: Table, sc: nat, g: Gen, e: Expr, i: nat): (r: (string, Gen))
    requires InScope(t, sc) && e.Call? && i < |e.args|
    ensures Extends(g, r.1) && r.1.lbl == g.lbl
    decreases e, 0, |e.args| - i, 0
  {
    assert e.args[i] in e.args;
    var (v, g1) := LowerExpr(t, sc, g, e.args[i]);
    (v, Put(g1, Instr(PARAM, Some(v), None, None)))
  }

  /** The arguments of call `e` from `i` on, in order. Also yields the
      operands pushed. */
  function LowerArgs(t: Table, sc: nat, g: Gen, e: Expr, i: nat): (r: (seq<Operand>, Gen))
    requires InScope(t, sc) && e.Call? && i <= |e.args|
    ensures Extends(g, r.1) && r.1.lbl == g.lbl && |r.0| == |e.args| - i
    decreases e, 0, |e.args| - i, 1
  {
    if i == |e.args| then ([], g)
    else
      var (v, g1) := LowerArg(t, sc, g, e, i);
      var (vs, g2) := LowerArgs(t, sc, g1, e, i + 1);
      ([Some(v)] + vs, g2)
  }

  /** Link i of chain `e`, `v` holding the value so far: the operand is
      lowered, then combined with `v` into a new temporary. */
  function LowerLink(t: Table, sc: nat, g: Gen, e: Expr, i: nat, v: string): (r: (string, Gen))
    requires InScope(t, sc) && e.Chain? && i < |e.rest|
    ensures Extends(g, r.1) && r.1.lbl == g.lbl
    ensures r.1.tmp > 0
    decreases e, 0, |e.rest| - i, 0
  {
    assert e.rest[i] in e.rest;
    var (w, g1) := LowerExpr(t, sc, g, e.rest[i].operand);
    var (tmp, g2) := NewTemp(g1);
    (tmp, Put(g2, Instr(ChainOp(e.level, e.rest[i].op), Some(v), Some(w), Some(tmp))))
  }

  /** The links of chain `e` from `i` on, folded left to right. */
  function LowerLinks(t: Table, sc: nat, g: Gen, e: Expr, i: nat, v: string): (r: (string, Gen))
    requires InScope(t, sc) && e.Chain? && i <= |e.rest|
    ensures Extends(g, r.1) && r.1.lbl == g.lbl

    ensures i == |e.rest| ==> r == (v, g)
    decreases e, 0, |e.rest| - i, 1
  {
    if i == |e.rest| then (v, g)
    else
      var (tmp, g1) := LowerLink(t, sc, g, e, i, v);
      LowerLinks(t, sc, g1, e, i + 1, tmp)
  }

  /** The index expressions of `e` from `i` on, lowered left to right. */
  function LowerIndices(t: Table, sc: nat, g: Gen, e: Expr, i: nat): (r: (seq<string>, Gen))
    requires InScope(t, sc) && (e.Elem? || e.Assign?) && i <= |IndexList(e)|
    ensures Extends(g, r.1) && r.1.lbl == g.lbl && |r.0| == |IndexList(e)| - i
    decreases e, 0, |IndexList(e)| - i
  {
    if i == |IndexList(e)| then ([], g)
    else
      assert e.Assign? ==> IndexList(e)[i] in e.target.indices;
      assert e.Elem? ==> IndexList(e)[i] in e.indices;
      var (v, g1) := LowerExpr(t, sc, g, IndexList(e)[i]);
      var (vs, g2) := LowerIndices(t, sc, g1, e, i + 1);
      ([v] + vs, g2)
  }

  // ---------------------------------------------------------------------
  // Statements
  // ---------------------------------------------------------------------

  /** An optional expression lowered for its effect only. */
  function LowerOpt(t: Table, sc: nat, g: Gen, e: Option<Expr>): (g': Gen)
    requires InScope(t, sc)
    ensures Extends(g, g') && g'.lbl == g.lbl
    ensures e.None? ==> g' == g
  {
    if e.Some? then LowerExpr(t, sc, g, e.value).1 else g
  }

  /** visitVarDecl inside a function, declarators from `i` on: a declarator
      that does not resolve to a variable, or has no initialiser, emits
      nothing; otherwise the initialiser is lowered, and only a local scalar
      gets the MOV. */
  function LowerDecl(t: Table, sc: nat, g: Gen, d: VarDecl, i: nat): (g': Gen)
    requires InScope(t, sc) && i <= |d.decls|
    ensures Extends(g, g') && g'.lbl == g.lbl
    decreases |d.decls| - i
  {
    if i == |d.decls| then g
    else
      var dc := d.decls[i];
      var v := ResolveVar(t, sc, dc.name);
      if v.None? || dc.init.None? then LowerDecl(t, sc, g, d, i + 1)
      else
        var (rhs, g1) := LowerExpr(t, sc, g, dc.init.value);
        if sc == Globals(t) || IsGlobalVar(t, sc, dc.name) || |v.value.dims| > 0 then LowerDecl(t, sc, g1, d, i + 1)
        else LowerDecl(t, sc, Put(g1, Instr(MOV, Some(rhs), None, Some(dc.name))), d, i + 1)
  }

  function LowerStmt(t: Table, sc: nat, g: Gen, s: Stmt): (g': Gen)
    requires InScope(t, sc)
    ensures Extends(g, g')
    decreases s, 1
  {
    match s
    case Decl(d) => LowerDecl(t, sc, g, d, 0)
    case ExprStmt(e) => LowerOpt(t, sc, g, e)
    case Return(e) =>
      if e.None? then Put(g, Instr(RET, None, None, None))
      else
        var (v, g1) := LowerExpr(t, sc, g, e.value);
        Put(g1, Instr(RET, Some(v), None, None))
    case If(c, s1, s2) => LowerIf(t, sc, g, s)
    case While(c, body) =>
      var (top, g1) := NewLabel(g, "while");
      var (out, g2) := NewLabel(g1, "endwhile");
      var (v, g3) := LowerExpr(t, sc, Put(g2, Label(top)), c);
      var g4 := LowerStmt(t, sc, Put(g3, IfZero(v, out)), body);
      Put(Put(g4, Goto(top)), Label(out))
    case For(init, test, step, body) => LowerFor(t, sc, g, s)
    case Nested(b) => LowerBlock(t, sc, g, b)
  }

  /** visitSelectionStmt: both labels are taken before the condition, even
      without an else branch. */
  function LowerIf(t: Table, sc: nat, g: Gen, s: Stmt): (g': Gen)
    requires InScope(t, sc) && s.If?
    ensures Extends(g, g')
    decreases s, 0
  {
    var (els, g1) := NewLabel(g, "else");
    var (end, g2) := NewLabel(g1, "endif");
    var (v, g3) := LowerExpr(t, sc, g2, s.cond);
    var g4 := LowerStmt(t, sc, Put(g3, IfZero(v, els)), s.thenS);
    if s.elseS.Some? then
      var g5 := LowerStmt(t, sc, Put(Put(g4, Goto(end)), Label(els)), s.elseS.value);
      Put(g5, Label(end))
    else Put(g4, Label(els))
  }

  /** visitForStmt: the initialiser comes before the labels are taken; the
      test, when present, exits through IFZ; the step follows the body. */
  function LowerFor(t: Table, sc: nat, g: Gen, s: Stmt): (g': Gen)
    requires InScope(t, sc) && s.For?
    ensures Extends(g, g')
    decreases s, 0
  {
    var g1 := LowerOpt(t, sc, g, s.init);
    var (top, g2) := NewLabel(g1, "for");
    var (out, g3) := NewLabel(g2, "endfor");
    var g4 := Put(g3, Label(top));
    var g5 := if s.test.Some? then
        var (v, h) := LowerExpr(t, sc, g4, s.test.value);
        Put(h, IfZero(v, out))
      else g4;
    var g6 := LowerStmt(t, sc, g5, s.body);
    var g7 := LowerOpt(t, sc, g6, s.step);
    Put(Put(g7, Goto(top)), Label(out))
  }

  /** The scope a block is lowered in: its own when one was recorded. */
  function BlockScope(t: Table, sc: nat, b: Block): (r: nat)
    requires InScope(t, sc)
    ensures InScope(t, r)
  {
    if 0 <= b.scope < |t.scopes| then b.scope else sc
  }

  function LowerBlock(t: Table, sc: nat, g: Gen, b: Block): (g': Gen)
    requires InScope(t, sc)
    ensures Extends(g, g')
    decreases b, 2, 0
  {
    LowerStmts(t, BlockScope(t, sc, b), g, b, 0)
  }

  function LowerStmts(t: Table, sc: nat, g: Gen, b: Block, i: nat): (g': Gen)
    requires InScope(t, sc) && i <= |b.stmts|
    ensures Extends(g, g')
    decreases b, 1, |b.stmts| - i
  {
    if i == |b.stmts| then g
    else
      assert b.stmts[i] in b.stmts;
      LowerStmts(t, sc, LowerStmt(t, sc, g, b.stmts[i]), b, i + 1)
  }

  // ---------------------------------------------------------------------
  // Functions and the program
  // ---------------------------------------------------------------------

  function ParamNames(ps: seq<Param>): (ns: seq<string>)
    ensures |ns| == |ps| && forall k :: 0 <= k < |ps| ==> ns[k] == ps[k].name
  {
    seq(|ps|, k requires 0 <= k < |ps| => ps[k].name)
  }

  /** visitFunctionDecl: the parameters' names in order, and the body lowered
      with the temporary counter restarted at 0; the label counter carries on.
      Returns the function and the label counter afterwards. */
  function LowerFunction(t: Table, lbl: nat, f: FuncDecl): (r: (Tac.Function, nat))
    requires Valid(t)
    ensures r.0.name == f.name && r.0.params == ParamNames(f.params)
    ensures r.1 >= lbl
  {
    var g := LowerBlock(t, Globals(t), Gen(0, lbl, []), f.body);
    (Tac.Function(f.name, ParamNames(f.params), g.code), g.lbl)
  }

  /** The function declarations of the program from `i` on, in order. */
  function FunctionDecls(p: Ast.Program, i: nat): (fs: seq<FuncDecl>)
    requires i <= |p.decls|
    ensures |fs| <= |p.decls| - i
    decreases |p.decls| - i
  {
    if i == |p.decls| then []
    else (if p.decls[i].Function? then [p.decls[i].f] else []) + FunctionDecls(p, i + 1)
  }

  /** The function declarations from `i` on, in program order: one TAC
      function each, with its name and parameter names. */
  function LowerFunctions(t: Table, p: Ast.Program, i: nat, lbl: nat): (r: (seq<Tac.Function>, nat))
    requires Valid(t) && i <= |p.decls|
    ensures r.1 >= lbl
    ensures var fds := FunctionDecls(p, i);
      && |r.0| == |fds|
      && forall k :: 0 <= k < |r.0| ==> r.0[k].name == fds[k].name && r.0[k].params == ParamNames(fds[k].params)
    decreases |p.decls| - i
  {
    if i == |p.decls| then ([], lbl)
    else if p.decls[i].Function? then
      var (fn, l1) := LowerFunction(t, lbl, p.decls[i].f);
      var (fs, l2) := LowerFunctions(t, p, i + 1, l1);
      ([fn] + fs, l2)
    else LowerFunctions(t, p, i + 1, lbl)
  }

  /** The `.data` reservation of a global: 4 bytes for a scalar, else
      4 * product(dims) in `int` arithmetic. */
  function GlobalBytes(v: VarSymbol): int {
    if |v.dims| > 0 then Int32.Wrap(4 * Product(v.dims)) else 4
  }

  /** The globals of the declarators of `d` from `j` on: those resolving,
      from the global scope, to a global variable. */
  function DeclGlobals(t: Table, d: VarDecl, j: nat): (gs: seq<Global>)
    requires Valid(t) && j <= |d.decls|
    decreases |d.decls| - j
  {
    if j == |d.decls| then []
    else
      var x := d.decls[j].name;
      var v := ResolveVar(t, Globals(t), x);
      if v.Some? && IsGlobalVar(t, Globals(t), x) then [Global(x, GlobalBytes(v.value))] + DeclGlobals(t, d, j + 1)
      else DeclGlobals(t, d, j + 1)
  }

  /** The globals of the top-level variable declarations from `i` on. */
  function ProgramGlobals(t: Table, p: Ast.Program, i: nat): seq<Global>
    requires Valid(t) && i <= |p.decls|
    decreases |p.decls| - i
  {
    if i == |p.decls| then []
    else if p.decls[i].GlobalVars? then DeclGlobals(t, p.decls[i].d, 0) + ProgramGlobals(t, p, i + 1)
    else ProgramGlobals(t, p, i + 1)
  }

  // Reference for the registration of globals: a flat pass over every
  // top-level declarator, asking the global scope's own map directly.

  /** The declarators of the top-level variable declarations from `i` on,
      in program order. */
  function TopDeclarators(p: Ast.Program, i: nat): seq<Declarator>
    requires i <= |p.decls|
    decreases |p.decls| - i
  {
    if i == |p.decls| then []
    else (if p.decls[i].GlobalVars? then p.decls[i].d.decls else []) + TopDeclarators(p, i + 1)
  }

  /** The global scope itself binds `x` to a variable. */
  predicate BoundGlobalVar(t: Table, x: string)
    requires Valid(t)
  {
    x in t.scopes[Globals(t)].symbols && t.scopes[Globals(t)].symbols[x].Var?
  }

  /** One `.data` entry per declarator whose name the global scope binds to
      a variable, in order, sized by that variable. */
  function Registrations(t: Table, ds: seq<Declarator>): seq<Global>
    requires Valid(t)
  {
    if |ds| == 0 then []
    else
      var x := ds[0].name;
      (if BoundGlobalVar(t, x) then [Global(x, GlobalBytes(t.scopes[Globals(t)].symbols[x].v))] else [])
      + Registrations(t, ds[1..])
  }

  /** From the global scope, resolution finds a global variable exactly when
      the scope's own map binds the name to a variable: it has no parent. */
  lemma GlobalResolution(t: Table, x: string)
    requires Valid(t)
    ensures var v := ResolveVar(t, Globals(t), x);
      (v.Some? && IsGlobalVar(t, Globals(t), x)) <==> BoundGlobalVar(t, x)
    ensures BoundGlobalVar(t, x) ==> ResolveVar(t, Globals(t), x) == Some(t.scopes[Globals(t)].symbols[x].v)
  {
  }

  lemma {:induction false} RegistrationsAppend(t: Table, a: seq<Declarator>, b: seq<Declarator>)
    requires Valid(t)
    ensures Registrations(t, a + b) == Registrations(t, a) + Registrations(t, b)
    decreases |a|
  {
    if |a| > 0 {
      assert (a + b)[0] == a[0] && (a + b)[1..] == a[1..] + b;
      RegistrationsAppend(t, a[1..], b);
    } else {
      assert a + b == b;
    }
  }

  lemma {:induction false} DeclGlobalsFlat(t: Table, d: VarDecl, j: nat)
    requires Valid(t) && j <= |d.decls|
    ensures DeclGlobals(t, d, j) == Registrations(t, d.decls[j..])
    decreases |d.decls| - j
  {
    if j < |d.decls| {
      GlobalResolution(t, d.decls[j].name);
      assert d.decls[j..][1..] == d.decls[j + 1..];
      DeclGlobalsFlat(t, d, j + 1);
    }
  }

  /** The globals visitProgram registers are the flat registration of every
      top-level declarator. */
  lemma {:induction false} ProgramGlobalsFlat(t: Table, p: Ast.Program, i: nat)
    requires Valid(t) && i <= |p.decls|
    ensures ProgramGlobals(t, p, i) == Registrations(t, TopDeclarators(p, i))
    decreases |p.decls| - i
  {
    if i < |p.decls| {
      ProgramGlobalsFlat(t, p, i + 1);
      if p.decls[i].GlobalVars? {
        DeclGlobalsFlat(t, p.decls[i].d, 0);
        assert p.decls[i].d.decls[0..] == p.decls[i].d.decls;
        RegistrationsAppend(t, p.decls[i].d.decls, TopDeclarators(p, i + 1));
      } else {
        assert TopDeclarators(p, i) == TopDeclarators(p, i + 1) by {
          assert [] + TopDeclarators(p, i + 1) == TopDeclarators(p, i + 1);
        }
      }
    }
  }

  /** A name gets a `.data` entry exactly when some declarator declares it
      and the global scope binds it to a variable. */
  lemma {:induction false} RegisteredExactly(t: Table, ds: seq<Declarator>, x: string)
    requires Valid(t)
    ensures (exists g :: g in Registrations(t, ds) && g.name == x)
        <==> (BoundGlobalVar(t, x) && exists k :: 0 <= k < |ds| && ds[k].name == x)
  {
    if |ds| > 0 {
      RegisteredExactly(t, ds[1..], x);
      if exists k :: 0 <= k < |ds| && ds[k].name == x {
        var k :| 0 <= k < |ds| && ds[k].name == x;
        if k > 0 { assert ds[1..][k - 1] == ds[k]; }
      }
      if exists k :: 0 <= k < |ds[1..]| && ds[1..][k].name == x {
        var k :| 0 <= k < |ds[1..]| && ds[1..][k].name == x;
        assert ds[k + 1] == ds[1..][k];
      }
    }
  }

  /** Every entry is a variable of the global scope, sized 4 bytes when
      scalar and 4 * product(dims), wrapped to `int`, when an array. */
  lemma {:induction false} RegisteredSizes(t: Table, ds: seq<Declarator>)
    requires Valid(t)
    ensures forall g :: g in Registrations(t, ds) ==>
      && BoundGlobalVar(t, g.name)
      && var v := t.scopes[Globals(t)].symbols[g.name].v;
         g.bytes == (if |v.dims| > 0 then Int32.Wrap(4 * Product(v.dims)) else 4)
  {
    if |ds| > 0 {
      RegisteredSizes(t, ds[1..]);
    }
  }

  /** visitProgram: the globals first, then every function in order. The
      globals are the flat registration of the top-level declarators; the
      functions are the function declarations with their names and
      parameter names. */
  function LowerProgram(t: Table, p: Ast.Program): (r: Tac.Program)
    requires Valid(t)
    ensures r.globals == Registrations(t, TopDeclarators(p, 0))
    ensures var fds := FunctionDecls(p, 0);
      && |r.functions| == |fds|
      && forall k :: 0 <= k < |fds| ==> r.functions[k].name == fds[k].name && r.functions[k].params == ParamNames(fds[k].params)
  {
    ProgramGlobalsFlat(t, p, 0);
    Tac.Program(ProgramGlobals(t, p, 0), LowerFunctions(t, p, 0, 0).0)
  }
}
