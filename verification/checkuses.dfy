/** The use-checking pass (semantics/CheckUses.java): every variable read
    through a bare-name primary must resolve from the scope of the innermost
    enclosing block, and every call must name a function of the global scope
    and pass as many arguments as it has parameters.

    The pass never defines anything; it only appends diagnostics, in the
    order of a left-to-right walk. Two kinds of primary are not descended
    into: a parenthesised expression and an element access `a[i]`. */
module CheckUses {
  import opened Common
  import opened Symbols
  import opened Diagnostics
  import opened Scopes
  import opened Ast

  /** What the pass checks at one place in the tree. */
  datatype Use =
    | VarUse(name: string)                  // a bare name
    | CallUse(callee: string, args: nat)    // a call with `args` arguments

  /** The diagnostics one use yields when it is read from scope `sc`: an
      unresolved name; an unknown callee, or a callee whose parameter count
      differs. */
  function UseDiags(t: Table, sc: nat, u: Use): (ds: seq<Diag>)
    requires Valid(t) && sc < |t.scopes|
    ensures |ds| <= 1
  {
    match u
    case VarUse(x) =>
      if Resolve(t.scopes, sc, x).None? then [UndeclaredVar(x)] else []
    case CallUse(f, n) =>
      var fs := ResolveFuncGlobal(t, f);
      if fs.None? then [UndeclaredFunc(f)]
      else if n != |fs.value.params| then [CallArity(f, n, |fs.value.params|)]
      else []
  }

  predicate UseOk(t: Table, sc: nat, u: Use)
    requires Valid(t) && sc < |t.scopes|
  {
    UseDiags(t, sc, u) == []
  }

  /** The diagnostics of a list of uses, in order. */
  function AllDiags(t: Table, sc: nat, us: seq<Use>): seq<Diag>
    requires Valid(t) && sc < |t.scopes|
  {
    if |us| == 0 then [] else UseDiags(t, sc, us[0]) + AllDiags(t, sc, us[1..])
  }

  lemma {:induction false} AllDiagsAppend(t: Table, sc: nat, us: seq<Use>, vs: seq<Use>)
    requires Valid(t) && sc < |t.scopes|
    ensures AllDiags(t, sc, us + vs) == AllDiags(t, sc, us) + AllDiags(t, sc, vs)
    decreases |us|
  {
    if |us| > 0 {
      assert (us + vs)[1..] == us[1..] + vs;
      AllDiagsAppend(t, sc, us[1..], vs);
    } else {
      assert us + vs == vs;
    }
  }

  /** Nothing is reported for a list of uses exactly when each use is fine. */
  lemma {:induction false} AllDiagsEmpty(t: Table, sc: nat, us: seq<Use>)
    requires Valid(t) && sc < |t.scopes|
    ensures AllDiags(t, sc, us) == [] <==> forall i :: 0 <= i < |us| ==> UseOk(t, sc, us[i])
    decreases |us|
  {
    if |us| > 0 {
      AllDiagsEmpty(t, sc, us[1..]);
      if AllDiags(t, sc, us) == [] {
        forall i | 0 <= i < |us| ensures UseOk(t, sc, us[i]) {
          if i > 0 { assert us[i] == us[1..][i - 1]; }
        }
      }
      if forall i :: 0 <= i < |us| ==> UseOk(t, sc, us[i]) {
        forall i | 0 <= i < |us| - 1 ensures UseOk(t, sc, us[1..][i]) {
          assert us[1..][i] == us[i + 1];
        }
      }
    }
  }

  // ---------------------------------------------------------------------
  // The walk, node by node
  // ---------------------------------------------------------------------

  /** visitPrimary and the default walk below it, from scope `sc`. */
  function ExprCheck(t: Table, sc: nat, e: Expr): seq<Diag>
    requires Valid(t) && sc < |t.scopes|
    decreases e, 1, 0
  {
    match e
    case IntLit(_) => []
    case CharLit(_) => []
    case StrLit(_) => []
    case BoolLit(_) => []
    case Name(x) => UseDiags(t, sc, VarUse(x))
    case Elem(_, _) => []
    case Call(f, args) => UseDiags(t, sc, CallUse(f, |args|)) + ArgsCheck(t, sc, e, 0)
    case Paren(_) => []
    case Not(x) => ExprCheck(t, sc, x)
    case Neg(x) => ExprCheck(t, sc, x)
    case Chain(_, first, _) => ExprCheck(t, sc, first) + LinksCheck(t, sc, e, 0)
    case Assign(_, rhs) => IndicesCheck(t, sc, e, 0) + ExprCheck(t, sc, rhs)
  }

  /** The arguments of call `e` from index `i` on. */
  function ArgsCheck(t: Table, sc: nat, e: Expr, i: nat): seq<Diag>
    requires Valid(t) && sc < |t.scopes| && e.Call? && i <= |e.args|
    decreases e, 0, |e.args| - i
  {
    if i == |e.args| then []
    else
      assert e.args[i] in e.args;
      ExprCheck(t, sc, e.args[i]) + ArgsCheck(t, sc, e, i + 1)
  }

  /** The operands after the first of chain `e`, from link `i` on. */
  function LinksCheck(t: Table, sc: nat, e: Expr, i: nat): seq<Diag>
    requires Valid(t) && sc < |t.scopes| && e.Chain? && i <= |e.rest|
    decreases e, 0, |e.rest| - i
  {
    if i == |e.rest| then []
    else
      assert e.rest[i] in e.rest;
      ExprCheck(t, sc, e.rest[i].operand) + LinksCheck(t, sc, e, i + 1)
  }

  /** The index expressions of assignment `e`'s target, from `i` on; the
      target name itself is not checked. */
  function IndicesCheck(t: Table, sc: nat, e: Expr, i: nat): seq<Diag>
    requires Valid(t) && sc < |t.scopes| && e.Assign? && i <= |e.target.indices|
    decreases e, 0, |e.target.indices| - i
  {
    if i == |e.target.indices| then []
    else
      assert e.target.indices[i] in e.target.indices;
      ExprCheck(t, sc, e.target.indices[i]) + IndicesCheck(t, sc, e, i + 1)
  }

  // ---------------------------------------------------------------------
  // The same walk, listing the uses it checks
  // ---------------------------------------------------------------------

  function ExprUses(e: Expr): seq<Use>
    decreases e, 1, 0
  {
    match e
    case IntLit(_) => []
    case CharLit(_) => []
    case StrLit(_) => []
    case BoolLit(_) => []
    case Name(x) => [VarUse(x)]
    case Elem(_, _) => []
    case Call(f, args) => [CallUse(f, |args|)] + ArgsUses(e, 0)
    case Paren(_) => []
    case Not(x) => ExprUses(x)
    case Neg(x) => ExprUses(x)
    case Chain(_, first, _) => ExprUses(first) + LinksUses(e, 0)
    case Assign(_, rhs) => IndicesUses(e, 0) + ExprUses(rhs)
  }

  function ArgsUses(e: Expr, i: nat): seq<Use>
    requires e.Call? && i <= |e.args|
    decreases e, 0, |e.args| - i
  {
    if i == |e.args| then []
    else
      assert e.args[i] in e.args;
      ExprUses(e.args[i]) + ArgsUses(e, i + 1)
  }

  function LinksUses(e: Expr, i: nat): seq<Use>
    requires e.Chain? && i <= |e.rest|
    decreases e, 0, |e.rest| - i
  {
    if i == |e.rest| then []
    else
      assert e.rest[i] in e.rest;
      ExprUses(e.rest[i].operand) + LinksUses(e, i + 1)
  }

  function IndicesUses(e: Expr, i: nat): seq<Use>
    requires e.Assign? && i <= |e.target.indices|
    decreases e, 0, |e.target.indices| - i
  {
    if i == |e.target.indices| then []
    else
      assert e.target.indices[i] in e.target.indices;
      ExprUses(e.target.indices[i]) + IndicesUses(e, i + 1)
  }

  /** The diagnostics of an expression are the failing checks of its uses,
      in order. */
  lemma {:induction false} ExprCheckIsAllDiags(t: Table, sc: nat, e: Expr)
    requires Valid(t) && sc < |t.scopes|
    ensures ExprCheck(t, sc, e) == AllDiags(t, sc, ExprUses(e))
    decreases e, 1, 0
  {
    match e
    case IntLit(_) =>
    case CharLit(_) =>
    case StrLit(_) =>
    case BoolLit(_) =>
    case Name(x) =>
      assert AllDiags(t, sc, [VarUse(x)]) == UseDiags(t, sc, VarUse(x)) + AllDiags(t, sc, []);
    case Elem(_, _) =>
    case Paren(_) =>
    case Call(f, args) =>
      ArgsCheckIsAllDiags(t, sc, e, 0);
      var u := CallUse(f, |args|);
      var rest := ArgsUses(e, 0);
      AllDiagsAppend(t, sc, [u], rest);
      assert AllDiags(t, sc, [u]) == UseDiags(t, sc, u) + AllDiags(t, sc, []);
    case Not(x) =>
      ExprCheckIsAllDiags(t, sc, x);
    case Neg(x) =>
      ExprCheckIsAllDiags(t, sc, x);
    case Chain(_, first, _) =>
      ExprCheckIsAllDiags(t, sc, first);
      LinksCheckIsAllDiags(t, sc, e, 0);
      AllDiagsAppend(t, sc, ExprUses(first), LinksUses(e, 0));
    case Assign(_, rhs) =>
      IndicesCheckIsAllDiags(t, sc, e, 0);
      ExprCheckIsAllDiags(t, sc, rhs);
      AllDiagsAppend(t, sc, IndicesUses(e, 0), ExprUses(rhs));
  }

  lemma {:induction false} ArgsCheckIsAllDiags(t: Table, sc: nat, e: Expr, i: nat)
    requires Valid(t) && sc < |t.scopes| && e.Call? && i <= |e.args|
    ensures ArgsCheck(t, sc, e, i) == AllDiags(t, sc, ArgsUses(e, i))
    decreases e, 0, |e.args| - i
  {
    if i < |e.args| {
      assert e.args[i] in e.args;
      ExprCheckIsAllDiags(t, sc, e.args[i]);
      ArgsCheckIsAllDiags(t, sc, e, i + 1);
      AllDiagsAppend(t, sc, ExprUses(e.args[i]), ArgsUses(e, i + 1));
    }
  }

  lemma {:induction false} LinksCheckIsAllDiags(t: Table, sc: nat, e: Expr, i: nat)
    requires Valid(t) && sc < |t.scopes| && e.Chain? && i <= |e.rest|
    ensures LinksCheck(t, sc, e, i) == AllDiags(t, sc, LinksUses(e, i))
    decreases e, 0, |e.rest| - i
  {
    if i < |e.rest| {
      assert e.rest[i] in e.rest;
      ExprCheckIsAllDiags(t, sc, e.rest[i].operand);
      LinksCheckIsAllDiags(t, sc, e, i + 1);
      AllDiagsAppend(t, sc, ExprUses(e.rest[i].operand), LinksUses(e, i + 1));
    }
  }

  lemma {:induction false} IndicesCheckIsAllDiags(t: Table, sc: nat, e: Expr, i: nat)
    requires Valid(t) && sc < |t.scopes| && e.Assign? && i <= |e.target.indices|
    ensures IndicesCheck(t, sc, e, i) == AllDiags(t, sc, IndicesUses(e, i))
    decreases e, 0, |e.target.indices| - i
  {
    if i < |e.target.indices| {
      assert e.target.indices[i] in e.target.indices;
      ExprCheckIsAllDiags(t, sc, e.target.indices[i]);
      IndicesCheckIsAllDiags(t, sc, e, i + 1);
      AllDiagsAppend(t, sc, ExprUses(e.target.indices[i]), IndicesUses(e, i + 1));
    }
  }

  /** An expression passes exactly when every name it reads resolves and
      every call it makes is to a global function of matching arity. */
  lemma ExprCheckEmpty(t: Table, sc: nat, e: Expr)
    requires Valid(t) && sc < |t.scopes|
    ensures var us := ExprUses(e);
      ExprCheck(t, sc, e) == [] <==> forall i :: 0 <= i < |us| ==> UseOk(t, sc, us[i])
  {
    ExprCheckIsAllDiags(t, sc, e);
    AllDiagsEmpty(t, sc, ExprUses(e));
  }

  /** As written, the pass does not look inside parentheses or array
      accesses: `(x)` and `a[x]` are never reported, whatever `x` and `a` are. */
  lemma HiddenPrimaries(t: Table, sc: nat, x: string, inner: Expr, idx: seq<Expr>)
    requires Valid(t) && sc < |t.scopes|
    ensures ExprCheck(t, sc, Paren(inner)) == []
    ensures ExprCheck(t, sc, Elem(x, idx)) == []
    ensures ExprCheck(t, sc, Paren(Name(x))) == [] && ExprCheck(t, sc, Name(x)) == [] <==> Resolve(t.scopes, sc, x).Some?
  {
  }

  /** A call is checked against the global scope only: a callee that is a
      local function-typed name or a global variable is unknown, and the
      arguments are checked after the callee. */
  lemma CallCheck(t: Table, sc: nat, f: string, args: seq<Expr>)
    requires Valid(t) && sc < |t.scopes|
    ensures var g := t.scopes[Globals(t)].symbols;
      var ds := ExprCheck(t, sc, Call(f, args));
      && (!(f in g && g[f].Func?) ==> |ds| > 0 && ds[0] == UndeclaredFunc(f))
      && (f in g && g[f].Func? && |g[f].f.params| != |args| ==>
            |ds| > 0 && ds[0] == CallArity(f, |args|, |g[f].f.params|))
  {
  }

  // ---------------------------------------------------------------------
  // Statements, blocks, functions and the program
  // ---------------------------------------------------------------------

  /** The scope a block is walked in: its own when collection recorded one. */
  function BlockScope(t: Table, sc: nat, b: Block): (r: nat)
    requires sc < |t.scopes|
    ensures r < |t.scopes|
    ensures 0 <= b.scope < |t.scopes| ==> r == b.scope
  {
    if 0 <= b.scope < |t.scopes| then b.scope else sc
  }

  function OptExprCheck(t: Table, sc: nat, e: Option<Expr>): seq<Diag>
    requires Valid(t) && sc < |t.scopes|
  {
    if e.Some? then ExprCheck(t, sc, e.value) else []
  }

  /** visitVarDecl: only the initialisers are walked. */
  function DeclCheck(t: Table, sc: nat, d: VarDecl, i: nat): seq<Diag>
    requires Valid(t) && sc < |t.scopes| && i <= |d.decls|
    decreases |d.decls| - i
  {
    if i == |d.decls| then []
    else OptExprCheck(t, sc, d.decls[i].init) + DeclCheck(t, sc, d, i + 1)
  }

  function StmtCheck(t: Table, sc: nat, s: Stmt): seq<Diag>
    requires Valid(t) && sc < |t.scopes|
    decreases s, 0, 0
  {
    match s
    case Decl(d) => DeclCheck(t, sc, d, 0)
    case ExprStmt(e) => OptExprCheck(t, sc, e)
    case Return(e) => OptExprCheck(t, sc, e)
    case If(c, s1, s2) =>
      ExprCheck(t, sc, c) + StmtCheck(t, sc, s1) + (if s2.Some? then StmtCheck(t, sc, s2.value) else [])
    case While(c, body) => ExprCheck(t, sc, c) + StmtCheck(t, sc, body)
    case For(i, c, st, body) =>
      OptExprCheck(t, sc, i) + OptExprCheck(t, sc, c) + OptExprCheck(t, sc, st) + StmtCheck(t, sc, body)
    case Nested(b) => BlockCheck(t, sc, b)
  }

  /** visitBlock: the statements, in the block's own scope. */
  function BlockCheck(t: Table, sc: nat, b: Block): seq<Diag>
    requires Valid(t) && sc < |t.scopes|
    decreases b, 2, 0
  {
    StmtsCheck(t, BlockScope(t, sc, b), b, 0)
  }

  function StmtsCheck(t: Table, sc: nat, b: Block, i: nat): seq<Diag>
    requires Valid(t) && sc < |t.scopes| && i <= |b.stmts|
    decreases b, 1, |b.stmts| - i
  {
    if i == |b.stmts| then []
    else
      assert b.stmts[i] in b.stmts;
      StmtCheck(t, sc, b.stmts[i]) + StmtsCheck(t, sc, b, i + 1)
  }

  /** A top-level declaration, from the scope recorded for the program
      node, which is the current scope. visitFunctionDecl walks the body in
      the scope recorded for it; parameters are not walked. */
  function TopCheck(t: Table, d: TopDecl): seq<Diag>
    requires Valid(t)
  {
    match d
    case GlobalVars(vd) => DeclCheck(t, Current(t), vd, 0)
    case Function(f) => BlockCheck(t, Current(t), f.body)
  }

  function DeclsCheck(t: Table, p: Program, i: nat): seq<Diag>
    requires Valid(t) && i <= |p.decls|
    decreases |p.decls| - i
  {
    if i == |p.decls| then [] else TopCheck(t, p.decls[i]) + DeclsCheck(t, p, i + 1)
  }

  /** The whole pass: the table's scopes and stack are
      untouched and the diagnostics are appended after the existing ones. */
  function CheckProgram(t: Table, p: Program): (r: Table)
    requires Valid(t)
    ensures Valid(r) && r.scopes == t.scopes && r.stack == t.stack
    ensures r.errors == t.errors + DeclsCheck(t, p, 0)
  {
    Table(t.scopes, t.stack, t.errors + DeclsCheck(t, p, 0))
  }

  /** Blocks nest lexically: a statement inside a nested block is checked in
      that block's scope, not the enclosing one. */
  lemma NestedBlockScope(t: Table, sc: nat, b: Block, e: Expr)
    requires Valid(t) && sc < |t.scopes|
    requires b.stmts == [ExprStmt(Some(e))] && 0 <= b.scope < |t.scopes|
    ensures StmtCheck(t, sc, Nested(b)) == ExprCheck(t, b.scope, e)
  {
    assert StmtsCheck(t, b.scope, b, 1) == [];
    assert StmtsCheck(t, b.scope, b, 0) == StmtCheck(t, b.scope, ExprStmt(Some(e))) + [];
  }
}
