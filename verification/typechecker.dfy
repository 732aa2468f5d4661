/** The type-checking pass (semantics/TypeChecker.java).

    An expression is typed at a depth of the precedence ladder: -1 is the
    assignment level, 0 logicalOr, 1 logicalAnd, 2 equality, 3 relational,
    4 additive, 5 multiplicative and 6 unary/primary. A node typed above its
    own level passes through the single-operand rules of the levels in
    between, exactly as the parse tree nests them. Those rules matter: a
    single-operand logicalOr, logicalAnd, equality or relational node
    always yields `int`, so every expression in an expression position is
    typed `int`, whatever its operands.

    Names resolve from the scope of the innermost enclosing block (the
    global scope outside functions). Diagnostics are appended in the order of
    the walk. */
module TypeChecker {
  import opened Common
  import opened Types
  import opened Symbols
  import opened Diagnostics
  import opened Scopes
  import opened Ast

  /** The type a node yields and the diagnostics its walk reports, in order. */
  datatype Typed = Typed(ty: Type, diags: seq<Diag>)

  predicate IntOrBool(t: Type) {
    t == INT || t == BOOL
  }

  /** The text test visitPrimary applies first: double-quoted text of length
      at least 2 is a string, single-quoted text of length at least 3 a char;
      `true`, `false`, digit strings and everything else fall to `int`. */
  function LiteralType(txt: string): (r: Type)
    ensures r in {INT, CHAR, STRING}
    ensures r == STRING <==> |txt| >= 2 && txt[0] == '"' && txt[|txt| - 1] == '"'
    ensures r == CHAR <==> |txt| >= 3 && txt[0] == '\'' && txt[|txt| - 1] == '\'' && !(txt[0] == '"')
  {
    if |txt| >= 2 && txt[0] == '"' && txt[|txt| - 1] == '"' then STRING
    else if |txt| >= 3 && txt[0] == '\'' && txt[|txt| - 1] == '\'' then CHAR
    else INT
  }

  /** A bare name: its type when it resolves to a variable, otherwise `int`
      and a diagnostic (an undeclared name and a function name alike). */
  function NameTyped(t: Table, sc: nat, x: string): (r: Typed)
    requires Valid(t) && sc < |t.scopes|
    ensures var s := Resolve(t.scopes, sc, x);
      && (s.Some? && s.value.Var? ==> r == Typed(s.value.v.ty, []))
      && (!(s.Some? && s.value.Var?) ==> r == Typed(INT, [NotAVariable(x)]))
  {
    var s := Resolve(t.scopes, sc, x);
    if s.Some? && s.value.Var? then Typed(s.value.v.ty, []) else Typed(INT, [NotAVariable(x)])
  }

  /** The check one operand after the first gets at a chain level, given the
      running type `acc`; returns the diagnostics and the next running type.
      Equality and relational compare each operand with the first; additive
      and multiplicative normalise to `int` after each step. */
  function LinkRule(l: Level, acc: Type, r: Type): (seq<Diag>, Type)
  {
    match l
    case OrLevel => (if IntOrBool(r) then [] else [OrOperand], INT)
    case AndLevel => (if IntOrBool(r) then [] else [AndOperand], INT)
    case EqLevel => (if IntOrBool(acc) && IntOrBool(r) then [] else [EqOperands], acc)
    case RelLevel => (if IntOrBool(acc) && IntOrBool(r) then [] else [RelOperands], acc)
    case AddLevel =>
      (if IsNumeric(acc) && IsNumeric(r) then [] else [AddOperands(acc, r)], INT)
    case MulLevel =>
      (if IsNumeric(acc) && IsNumeric(r) then [] else [MulOperands(acc, r)], INT)
  }

  /** The check the first operand gets: only `||` and `&&` check it. */
  function FirstRule(l: Level, t0: Type): seq<Diag> {
    match l
    case OrLevel => if IntOrBool(t0) then [] else [OrOperand]
    case AndLevel => if IntOrBool(t0) then [] else [AndOperand]
    case _ => []
  }

  /** The type a chain yields from its running type: the four upper levels
      always yield `int`. */
  function ChainResult(l: Level, acc: Type): Type {
    match l
    case AddLevel => acc
    case MulLevel => acc
    case _ => INT
  }

  /** The built-in printers are recognised by name, before any lookup. */
  predicate IsPrinter(f: string) {
    f == "printInt" || f == "printChar" || f == "printString"
  }

  /** Whether a printer accepts the argument types. */
  predicate PrinterAccepts(f: string, ts: seq<Type>)
    requires IsPrinter(f)
  {
    && |ts| == 1
    && (f == "printInt" ==> ts[0] == INT)
    && (f == "printChar" ==> ts[0] == CHAR || ts[0] == INT)
    && (f == "printString" ==> ts[0] == STRING)
  }

  /** One diagnostic per argument whose type differs from its parameter's,
      from position `i` on; positions are reported from 1. */
  function ArgMismatches(f: string, ps: seq<VarSymbol>, ts: seq<Type>, i: nat): (ds: seq<Diag>)
    requires |ps| == |ts| && i <= |ts|
    ensures |ds| <= |ts| - i
    ensures forall k :: 0 <= k < |ds| ==> ds[k].ArgType? && ds[k].callee == f
    ensures ds == [] <==> forall k :: i <= k < |ts| ==> ps[k].ty == ts[k]
    decreases |ts| - i
  {
    if i == |ts| then []
    else
      (if ps[i].ty != ts[i] then [ArgType(i + 1, f, ps[i].ty, ts[i])] else [])
      + ArgMismatches(f, ps, ts, i + 1)
  }

  /** A call, once its argument types are known. */
  function CallRule(t: Table, sc: nat, f: string, ts: seq<Type>): (r: Typed)
    requires Valid(t) && sc < |t.scopes|
    ensures IsPrinter(f) ==> r.ty == VOID && (r.diags == [] <==> PrinterAccepts(f, ts))
    ensures !IsPrinter(f) ==> var s := Resolve(t.scopes, sc, f);
      && (!(s.Some? && s.value.Func?) ==> r == Typed(INT, [UndeclaredFunc(f)]))
      && (s.Some? && s.value.Func? ==>
            && r.ty == s.value.f.ty
            && (r.diags == [] <==>
                  |s.value.f.params| == |ts| && forall k :: 0 <= k < |ts| ==> s.value.f.params[k].ty == ts[k]))
    ensures NoneHidden(r.diags)
  {
    if IsPrinter(f) then
      Typed(VOID, if PrinterAccepts(f, ts) then [] else [BuiltinArgs(f)])
    else
      var s := Resolve(t.scopes, sc, f);
      if !(s.Some? && s.value.Func?) then Typed(INT, [UndeclaredFunc(f)])
      else
        var fs := s.value.f;
        if |fs.params| != |ts| then Typed(fs.ty, [TypeArity(f, |fs.params|, |ts|)])
        else Typed(fs.ty, ArgMismatches(f, fs.params, ts, 0))
  }

  // ---------------------------------------------------------------------
  // Expressions
  // ---------------------------------------------------------------------

  /** The exception the walk raises at an assignment: in the alternative
      `lvalue '=' assignment` the node has no logicalOr child, so the visit
      of that absent child dereferences null. */
  const NullVisit := "NullPointerException"

  /** The type of `e` typed at depth `d` from scope `sc`, or the exception
      that aborts the walk. */
  function TypeAt(t: Table, sc: nat, e: Expr, d: int): Outcome<Typed>
    requires Valid(t) && sc < |t.scopes| && -1 <= d <= 6
    decreases e, 1, 6 - d
  {
    if d < NaturalDepth(e) then
      // the single-operand rule of level d
      if d == -1 then TypeAt(t, sc, e, 0)
      else if d == 0 then
        var r :- TypeAt(t, sc, e, 1);
        Ok(Typed(INT, r.diags + FirstRule(OrLevel, r.ty)))
      else if d == 1 then
        var r :- TypeAt(t, sc, e, 2);
        Ok(Typed(INT, r.diags + FirstRule(AndLevel, r.ty)))
      else if d == 2 || d == 3 then
        var r :- TypeAt(t, sc, e, d + 1);
        Ok(Typed(INT, r.diags))
      else TypeAt(t, sc, e, d + 1)
    else
      match e
      case IntLit(txt) => Ok(Typed(LiteralType(txt), []))
      case CharLit(txt) => Ok(Typed(LiteralType(txt), []))
      case StrLit(txt) => Ok(Typed(LiteralType(txt), []))
      case BoolLit(_) => Ok(Typed(INT, []))
      case Name(x) => Ok(NameTyped(t, sc, x))
      case Elem(_, _) => Ok(Typed(INT, []))
      case Paren(inner) => TypeAt(t, sc, inner, -1)
      case Not(x) =>
        var r :- TypeAt(t, sc, x, 6);
        Ok(Typed(INT, r.diags + if IntOrBool(r.ty) then [] else [NotOperand]))
      case Neg(x) =>
        var r :- TypeAt(t, sc, x, 6);
        Ok(Typed(INT, r.diags + if r.ty == INT then [] else [NegOperand]))
      case Call(f, _) =>
        var args :- ArgsTyped(t, sc, e, 0);
        var c := CallRule(t, sc, f, args.0);
        Ok(Typed(c.ty, args.1 + c.diags))
      case Chain(l, first, _) =>
        var f :- TypeAt(t, sc, first, Depth(l) + 1);
        var tail :- LinksTyped(t, sc, e, 0, f.ty);
        Ok(Typed(ChainResult(l, tail.ty), f.diags + FirstRule(l, f.ty) + tail.diags))
      case Assign(_, _) => Thrown(NullVisit)
  }

  /** The argument types of call `e` from index `i` on (each typed as a full
      expression) and the diagnostics of their walks. */
  function ArgsTyped(t: Table, sc: nat, e: Expr, i: nat): (r: Outcome<(seq<Type>, seq<Diag>)>)
    requires Valid(t) && sc < |t.scopes| && e.Call? && i <= |e.args|
    ensures r.Ok? ==> |r.value.0| == |e.args| - i
    decreases e, 0, |e.args| - i
  {
    if i == |e.args| then Ok(([], []))
    else
      assert e.args[i] in e.args;
      var a :- TypeAt(t, sc, e.args[i], -1);
      var rest :- ArgsTyped(t, sc, e, i + 1);
      Ok(([a.ty] + rest.0, a.diags + rest.1))
  }

  /** The operands of chain `e` from link `i` on, with running type `acc`. */
  function LinksTyped(t: Table, sc: nat, e: Expr, i: nat, acc: Type): Outcome<Typed>
    requires Valid(t) && sc < |t.scopes| && e.Chain? && i <= |e.rest|
    decreases e, 0, |e.rest| - i
  {
    if i == |e.rest| then Ok(Typed(acc, []))
    else
      assert e.rest[i] in e.rest;
      var r :- TypeAt(t, sc, e.rest[i].operand, Depth(e.level) + 1);
      var lr := LinkRule(e.level, acc, r.ty);
      var tail :- LinksTyped(t, sc, e, i + 1, lr.1);
      Ok(Typed(tail.ty, r.diags + lr.0 + tail.diags))
  }

  // ---------------------------------------------------------------------
  // Statements, functions and the program
  // ---------------------------------------------------------------------

  /** The scope a block's statements resolve names from: its own when
      collection recorded one, otherwise the enclosing one. */
  function BlockScope(t: Table, sc: nat, b: Block): (r: nat)
    requires sc < |t.scopes|
    ensures r < |t.scopes|
    ensures 0 <= b.scope < |t.scopes| ==> r == b.scope
  {
    if 0 <= b.scope < |t.scopes| then b.scope else sc
  }

  /** visitReturnStmt's rule, given the returned type (`void` for a bare
      return) and the function being checked, if any. */
  function ReturnRule(found: Type, cf: Option<FuncSymbol>): seq<Diag> {
    if cf.Some? && !CompatibleReturn(cf.value.ty, found) then [BadReturn(found, cf.value.name, cf.value.ty)]
    else []
  }

  /** One declarator's initialiser, typed as a full expression, must be
      assignment-compatible with the declared type. */
  function InitTyped(t: Table, sc: nat, ty: string, init: Option<Expr>): Outcome<seq<Diag>>
    requires Valid(t) && sc < |t.scopes|
  {
    if init.None? then Ok([])
    else
      var r :- TypeAt(t, sc, init.value, -1);
      var declT := FromToken(ty);
      Ok(r.diags + if AssignmentCompatible(declT, r.ty) then [] else [BadInit(declT, r.ty)])
  }

  /** visitVarDecl: the declarators from `i` on, in order. */
  function DeclTyped(t: Table, sc: nat, d: VarDecl, i: nat): Outcome<seq<Diag>>
    requires Valid(t) && sc < |t.scopes| && i <= |d.decls|
    decreases |d.decls| - i
  {
    if i == |d.decls| then Ok([])
    else
      var here :- InitTyped(t, sc, d.ty, d.decls[i].init);
      var rest :- DeclTyped(t, sc, d, i + 1);
      Ok(here + rest)
  }

  function OptDiags(t: Table, sc: nat, e: Option<Expr>): Outcome<seq<Diag>>
    requires Valid(t) && sc < |t.scopes|
  {
    if e.None? then Ok([])
    else
      var r :- TypeAt(t, sc, e.value, -1);
      Ok(r.diags)
  }

  function StmtTyped(t: Table, sc: nat, cf: Option<FuncSymbol>, s: Stmt): Outcome<seq<Diag>>
    requires Valid(t) && sc < |t.scopes|
    decreases s, 0, 0
  {
    match s
    case Decl(d) => DeclTyped(t, sc, d, 0)
    case ExprStmt(e) => OptDiags(t, sc, e)
    case Return(v) =>
      if v.None? then Ok(ReturnRule(VOID, cf))
      else
        var r :- TypeAt(t, sc, v.value, -1);
        Ok(r.diags + ReturnRule(r.ty, cf))
    case If(c, s1, s2) =>
      var r :- TypeAt(t, sc, c, -1);
      var d1 :- StmtTyped(t, sc, cf, s1);
      var d2 :- if s2.Some? then StmtTyped(t, sc, cf, s2.value) else Ok([]);
      Ok(r.diags + (if IsBooly(r.ty) then [] else [BadIfCond(r.ty)]) + d1 + d2)
    case While(c, body) =>
      var r :- TypeAt(t, sc, c, -1);
      var d1 :- StmtTyped(t, sc, cf, body);
      Ok(r.diags + (if IsBooly(r.ty) then [] else [BadWhileCond(r.ty)]) + d1)
    case For(i, c, st, body) =>
      var a :- OptDiags(t, sc, i);
      var b :- OptDiags(t, sc, c);
      var g :- OptDiags(t, sc, st);
      var h :- StmtTyped(t, sc, cf, body);
      Ok(a + b + g + h)
    case Nested(b) => BlockTyped(t, sc, cf, b)
  }

  function BlockTyped(t: Table, sc: nat, cf: Option<FuncSymbol>, b: Block): Outcome<seq<Diag>>
    requires Valid(t) && sc < |t.scopes|
    decreases b, 2, 0
  {
    StmtsTyped(t, BlockScope(t, sc, b), cf, b, 0)
  }

  function StmtsTyped(t: Table, sc: nat, cf: Option<FuncSymbol>, b: Block, i: nat): Outcome<seq<Diag>>
    requires Valid(t) && sc < |t.scopes| && i <= |b.stmts|
    decreases b, 1, |b.stmts| - i
  {
    if i == |b.stmts| then Ok([])
    else
      assert b.stmts[i] in b.stmts;
      var h :- StmtTyped(t, sc, cf, b.stmts[i]);
      var rest :- StmtsTyped(t, sc, cf, b, i + 1);
      Ok(h + rest)
  }

  /** visitFunctionDecl: the name is looked up from the current scope; the
      function it finds is the one returns are checked against. */
  function FunctionTyped(t: Table, f: FuncDecl): Outcome<seq<Diag>>
    requires Valid(t)
  {
    var s := Resolve(t.scopes, Current(t), f.name);
    if s.Some? && s.value.Func? then BlockTyped(t, Current(t), Some(s.value.f), f.body)
    else
      var body :- BlockTyped(t, Current(t), None, f.body);
      Ok([BadFunctionDecl(f.name)] + body)
  }

  function TopTyped(t: Table, d: TopDecl): Outcome<seq<Diag>>
    requires Valid(t)
  {
    match d
    case GlobalVars(vd) => DeclTyped(t, Current(t), vd, 0)
    case Function(f) => FunctionTyped(t, f)
  }

  function DeclsTyped(t: Table, p: Program, i: nat): Outcome<seq<Diag>>
    requires Valid(t) && i <= |p.decls|
    decreases |p.decls| - i
  {
    if i == |p.decls| then Ok([])
    else
      var h :- TopTyped(t, p.decls[i]);
      var rest :- DeclsTyped(t, p, i + 1);
      Ok(h + rest)
  }

  /** The entry-point check at the end of visitProgram. */
  function MainDiags(t: Table): (ds: seq<Diag>)
    requires Valid(t)
  {
    var s := Resolve(t.scopes, Current(t), "main");
    if !(s.Some? && s.value.Func?) then [MissingMain]
    else
      (if s.value.f.ty != INT then [MainNotInt(s.value.f.ty)] else [])
      + (if |s.value.f.params| > 0 then [MainHasParams(|s.value.f.params|)] else [])
  }

  /** The whole pass: declarations in order, then the entry-point check. It
      only appends to the error list, and the entry-point diagnostics come
      last; an exception from the walk propagates and skips that check. */
  function CheckProgram(t: Table, p: Program): (r: Outcome<Table>)
    requires Valid(t)
    ensures r.Ok? ==> Valid(r.value) && r.value.scopes == t.scopes && r.value.stack == t.stack
    ensures r.Ok? ==> (
      && |t.errors| + |MainDiags(t)| <= |r.value.errors|
      && r.value.errors[..|t.errors|] == t.errors
      && r.value.errors[|r.value.errors| - |MainDiags(t)|..] == MainDiags(t))
  {
    var ds :- DeclsTyped(t, p, 0);
    Ok(Table(t.scopes, t.stack, t.errors + ds + MainDiags(t)))
  }

  // ---------------------------------------------------------------------
  // Laws
  // ---------------------------------------------------------------------

  /** Every node typed at the assignment, logicalOr, logicalAnd, equality or
      relational level yields `int`: those levels never pass an operand's
      type through. In particular every full expression is typed `int`. */
  lemma UpperLevelsAreInt(t: Table, sc: nat, e: Expr, d: int)
    requires Valid(t) && sc < |t.scopes| && -1 <= d <= 3
    ensures TypeAt(t, sc, e, d).Ok? ==> TypeAt(t, sc, e, d).value.ty == INT
  {
    if d == -1 && d < NaturalDepth(e) {
      assert TypeAt(t, sc, e, -1) == TypeAt(t, sc, e, 0);
    }
  }

  /** The diagnostics the ladder makes unreachable: an operand of `||` or
      `&&`, an operand of `==`/`!=`, a condition. */
  predicate Hidden(g: Diag) {
    g.OrOperand? || g.AndOperand? || g.EqOperands? || g.BadIfCond? || g.BadWhileCond?
  }

  predicate NoneHidden(ds: seq<Diag>) {
    forall k :: 0 <= k < |ds| ==> !Hidden(ds[k])
  }

  lemma NoneHiddenAppend(a: seq<Diag>, b: seq<Diag>)
    requires NoneHidden(a) && NoneHidden(b)
    ensures NoneHidden(a + b)
  {
    forall k | 0 <= k < |a + b| ensures !Hidden((a + b)[k]) {
      if k >= |a| { assert (a + b)[k] == b[k - |a|]; }
    }
  }

  /** No expression walk that completes reports an operand of `||`, `&&`,
      `==` or `!=`: each such check sees an operand typed at a level that
      always yields `int`. */
  lemma {:induction false} ExprHidesLadder(t: Table, sc: nat, e: Expr, d: int)
    requires Valid(t) && sc < |t.scopes| && -1 <= d <= 6
    ensures TypeAt(t, sc, e, d).Ok? ==> NoneHidden(TypeAt(t, sc, e, d).value.diags)
    decreases e, 1, 6 - d
  {
    if d < NaturalDepth(e) {
      ExprHidesLadder(t, sc, e, d + 1);
      if d == 0 || d == 1 {
        UpperLevelsAreInt(t, sc, e, d + 1);
      }
    } else {
      NodeHidesLadder(t, sc, e, d);
    }
  }

  /** The case of `ExprHidesLadder` where `e` is typed at its own level. */
  lemma {:induction false} NodeHidesLadder(t: Table, sc: nat, e: Expr, d: int)
    requires Valid(t) && sc < |t.scopes| && NaturalDepth(e) <= d <= 6
    ensures TypeAt(t, sc, e, d).Ok? ==> NoneHidden(TypeAt(t, sc, e, d).value.diags)
    decreases e, 1, 6 - d, 0
  {
    match e
    case Paren(inner) => ExprHidesLadder(t, sc, inner, -1);
    case Not(x) => ExprHidesLadder(t, sc, x, 6);
    case Neg(x) => ExprHidesLadder(t, sc, x, 6);
    case Call(f, _) =>
      ArgsHideLadder(t, sc, e, 0);
      var args := ArgsTyped(t, sc, e, 0);
      if args.Ok? {
        NoneHiddenAppend(args.value.1, CallRule(t, sc, f, args.value.0).diags);
      }
    case Chain(l, first, _) =>
      var r := TypeAt(t, sc, first, Depth(l) + 1);
      if r.Ok? {
        var tail := LinksTyped(t, sc, e, 0, r.value.ty);
        assert NoneHidden(r.value.diags + FirstRule(l, r.value.ty)) by {
          ExprHidesLadder(t, sc, first, Depth(l) + 1);
          if Depth(l) < 3 { UpperLevelsAreInt(t, sc, first, Depth(l) + 1); }
          NoneHiddenAppend(r.value.diags, FirstRule(l, r.value.ty));
        }
        if tail.Ok? {
          assert NoneHidden(tail.value.diags) by {
            if Depth(l) < 3 { UpperLevelsAreInt(t, sc, first, Depth(l) + 1); }
            LinksHideLadder(t, sc, e, 0, r.value.ty);
          }
          NoneHiddenAppend(r.value.diags + FirstRule(l, r.value.ty), tail.value.diags);
        }
      }
    case _ =>
  }

  lemma {:induction false} ArgsHideLadder(t: Table, sc: nat, e: Expr, i: nat)
    requires Valid(t) && sc < |t.scopes| && e.Call? && i <= |e.args|
    ensures ArgsTyped(t, sc, e, i).Ok? ==> NoneHidden(ArgsTyped(t, sc, e, i).value.1)
    decreases e, 0, |e.args| - i
  {
    if i < |e.args| {
      assert e.args[i] in e.args;
      ExprHidesLadder(t, sc, e.args[i], -1);
      ArgsHideLadder(t, sc, e, i + 1);
      var a := TypeAt(t, sc, e.args[i], -1);
      var rest := ArgsTyped(t, sc, e, i + 1);
      if a.Ok? && rest.Ok? {
        NoneHiddenAppend(a.value.diags, rest.value.1);
      }
    }
  }

  /** One link's own check never reports a hidden diagnostic when its
      operand (and, for `==`, the first operand) is `int`. */
  lemma LinkRuleHides(l: Level, acc: Type, r: Type)
    requires Depth(l) < 3 ==> r == INT
    requires l == EqLevel ==> acc == INT
    ensures NoneHidden(LinkRule(l, acc, r).0)
    ensures l == EqLevel ==> LinkRule(l, acc, r).1 == INT
  {
  }

  lemma {:induction false} LinksHideLadder(t: Table, sc: nat, e: Expr, i: nat, acc: Type)
    requires Valid(t) && sc < |t.scopes| && e.Chain? && i <= |e.rest|
    requires e.level == EqLevel ==> acc == INT
    ensures LinksTyped(t, sc, e, i, acc).Ok? ==> NoneHidden(LinksTyped(t, sc, e, i, acc).value.diags)
    decreases e, 0, |e.rest| - i
  {
    if i < |e.rest| {
      assert e.rest[i] in e.rest;
      var x := e.rest[i].operand;
      var r := TypeAt(t, sc, x, Depth(e.level) + 1);
      if r.Ok? {
        var lr := LinkRule(e.level, acc, r.value.ty);
        var tail := LinksTyped(t, sc, e, i + 1, lr.1);
        assert NoneHidden(r.value.diags) by { ExprHidesLadder(t, sc, x, Depth(e.level) + 1); }
        assert NoneHidden(lr.0) && (e.level == EqLevel ==> lr.1 == INT) by {
          if Depth(e.level) < 3 { UpperLevelsAreInt(t, sc, x, Depth(e.level) + 1); }
          LinkRuleHides(e.level, acc, r.value.ty);
        }
        if tail.Ok? {
          assert NoneHidden(tail.value.diags) by { LinksHideLadder(t, sc, e, i + 1, lr.1); }
          assert NoneHidden(r.value.diags + lr.0 + tail.value.diags) by {
            NoneHiddenAppend(r.value.diags, lr.0);
            NoneHiddenAppend(r.value.diags + lr.0, tail.value.diags);
          }
          assert LinksTyped(t, sc, e, i, acc).value.diags == r.value.diags + lr.0 + tail.value.diags;
        }
      }
    }
  }

  lemma {:induction false} OptHidesLadder(t: Table, sc: nat, e: Option<Expr>)
    requires Valid(t) && sc < |t.scopes|
    ensures OptDiags(t, sc, e).Ok? ==> NoneHidden(OptDiags(t, sc, e).value)
  {
    if e.Some? { ExprHidesLadder(t, sc, e.value, -1); }
  }

  lemma {:induction false} InitHidesLadder(t: Table, sc: nat, ty: string, init: Option<Expr>)
    requires Valid(t) && sc < |t.scopes|
    ensures InitTyped(t, sc, ty, init).Ok? ==> NoneHidden(InitTyped(t, sc, ty, init).value)
  {
    if init.Some? {
      var r := TypeAt(t, sc, init.value, -1);
      ExprHidesLadder(t, sc, init.value, -1);
      if r.Ok? {
        var declT := FromToken(ty);
        NoneHiddenAppend(r.value.diags, if AssignmentCompatible(declT, r.value.ty) then [] else [BadInit(declT, r.value.ty)]);
      }
    }
  }

  lemma {:induction false} DeclHidesLadder(t: Table, sc: nat, d: VarDecl, i: nat)
    requires Valid(t) && sc < |t.scopes| && i <= |d.decls|
    ensures DeclTyped(t, sc, d, i).Ok? ==> NoneHidden(DeclTyped(t, sc, d, i).value)
    decreases |d.decls| - i
  {
    if i < |d.decls| {
      DeclHidesLadder(t, sc, d, i + 1);
      InitHidesLadder(t, sc, d.ty, d.decls[i].init);
      var here := InitTyped(t, sc, d.ty, d.decls[i].init);
      var rest := DeclTyped(t, sc, d, i + 1);
      if here.Ok? && rest.Ok? {
        NoneHiddenAppend(here.value, rest.value);
      }
    }
  }

  /** A condition the walk completes is always acceptable, and its walk
      hides the ladder. */
  lemma CondHidesLadder(t: Table, sc: nat, c: Expr)
    requires Valid(t) && sc < |t.scopes|
    ensures TypeAt(t, sc, c, -1).Ok? ==>
      IsBooly(TypeAt(t, sc, c, -1).value.ty) && NoneHidden(TypeAt(t, sc, c, -1).value.diags)
  {
    ExprHidesLadder(t, sc, c, -1);
    UpperLevelsAreInt(t, sc, c, -1);
  }

  /** No statement walk reports a hidden diagnostic either: in particular
      an `if` or `while` condition is never rejected, since it is typed
      `int` and `int` is an acceptable condition. */
  lemma {:induction false} StmtHidesLadder(t: Table, sc: nat, cf: Option<FuncSymbol>, s: Stmt)
    requires Valid(t) && sc < |t.scopes|
    ensures StmtTyped(t, sc, cf, s).Ok? ==> NoneHidden(StmtTyped(t, sc, cf, s).value)
    decreases s, 0, 0
  {
    match s
    case Decl(d) => DeclHidesLadder(t, sc, d, 0);
    case ExprStmt(e) => OptHidesLadder(t, sc, e);
    case Return(v) =>
      if v.Some? {
        var r := TypeAt(t, sc, v.value, -1);
        ExprHidesLadder(t, sc, v.value, -1);
        if r.Ok? { NoneHiddenAppend(r.value.diags, ReturnRule(r.value.ty, cf)); }
      }
    case If(c, s1, s2) =>
      var r := TypeAt(t, sc, c, -1);
      var d1 := StmtTyped(t, sc, cf, s1);
      var d2 := if s2.Some? then StmtTyped(t, sc, cf, s2.value) else Ok([]);
      if r.Ok? && d1.Ok? && d2.Ok? {
        CondHidesLadder(t, sc, c);
        assert NoneHidden(d1.value + d2.value) by {
          StmtHidesLadder(t, sc, cf, s1);
          if s2.Some? { StmtHidesLadder(t, sc, cf, s2.value); }
          NoneHiddenAppend(d1.value, d2.value);
        }
        NoneHiddenAppend(r.value.diags + [], d1.value + d2.value);
        assert StmtTyped(t, sc, cf, s).value == r.value.diags + [] + (d1.value + d2.value);
      }
    case While(c, body) =>
      var r := TypeAt(t, sc, c, -1);
      var d1 := StmtTyped(t, sc, cf, body);
      if r.Ok? && d1.Ok? {
        CondHidesLadder(t, sc, c);
        StmtHidesLadder(t, sc, cf, body);
        NoneHiddenAppend(r.value.diags + [], d1.value);
      }
    case For(i, c, st, body) =>
      var a := OptDiags(t, sc, i);
      var b := OptDiags(t, sc, c);
      var g := OptDiags(t, sc, st);
      var h := StmtTyped(t, sc, cf, body);
      if a.Ok? && b.Ok? && g.Ok? && h.Ok? {
        OptHidesLadder(t, sc, i);
        OptHidesLadder(t, sc, c);
        OptHidesLadder(t, sc, st);
        StmtHidesLadder(t, sc, cf, body);
        NoneHiddenAppend(a.value, b.value);
        NoneHiddenAppend(a.value + b.value, g.value);
        NoneHiddenAppend(a.value + b.value + g.value, h.value);
      }
    case Nested(b) => BlockHidesLadder(t, sc, cf, b);
  }

  lemma {:induction false} BlockHidesLadder(t: Table, sc: nat, cf: Option<FuncSymbol>, b: Block)
    requires Valid(t) && sc < |t.scopes|
    ensures BlockTyped(t, sc, cf, b).Ok? ==> NoneHidden(BlockTyped(t, sc, cf, b).value)
    decreases b, 2, 0
  {
    StmtsHideLadder(t, BlockScope(t, sc, b), cf, b, 0);
  }

  lemma {:induction false} StmtsHideLadder(t: Table, sc: nat, cf: Option<FuncSymbol>, b: Block, i: nat)
    requires Valid(t) && sc < |t.scopes| && i <= |b.stmts|
    ensures StmtsTyped(t, sc, cf, b, i).Ok? ==> NoneHidden(StmtsTyped(t, sc, cf, b, i).value)
    decreases b, 1, |b.stmts| - i
  {
    if i < |b.stmts| {
      assert b.stmts[i] in b.stmts;
      StmtHidesLadder(t, sc, cf, b.stmts[i]);
      StmtsHideLadder(t, sc, cf, b, i + 1);
      var h := StmtTyped(t, sc, cf, b.stmts[i]);
      var rest := StmtsTyped(t, sc, cf, b, i + 1);
      if h.Ok? && rest.Ok? {
        NoneHiddenAppend(h.value, rest.value);
      }
    }
  }

  lemma {:induction false} TopHidesLadder(t: Table, d: TopDecl)
    requires Valid(t)
    ensures TopTyped(t, d).Ok? ==> NoneHidden(TopTyped(t, d).value)
  {
    match d
    case GlobalVars(vd) => DeclHidesLadder(t, Current(t), vd, 0);
    case Function(f) =>
      var s := Resolve(t.scopes, Current(t), f.name);
      if s.Some? && s.value.Func? {
        BlockHidesLadder(t, Current(t), Some(s.value.f), f.body);
      } else {
        BlockHidesLadder(t, Current(t), None, f.body);
        var body := BlockTyped(t, Current(t), None, f.body);
        if body.Ok? { NoneHiddenAppend([BadFunctionDecl(f.name)], body.value); }
      }
  }

  /** The whole walk never reports a hidden diagnostic. */
  lemma {:induction false} ProgramHidesLadder(t: Table, p: Program, i: nat)
    requires Valid(t) && i <= |p.decls|
    ensures DeclsTyped(t, p, i).Ok? ==> NoneHidden(DeclsTyped(t, p, i).value)
    decreases |p.decls| - i
  {
    if i < |p.decls| {
      ProgramHidesLadder(t, p, i + 1);
      TopHidesLadder(t, p.decls[i]);
      var h := TopTyped(t, p.decls[i]);
      var rest := DeclsTyped(t, p, i + 1);
      if h.Ok? && rest.Ok? {
        NoneHiddenAppend(h.value, rest.value);
      }
    }
  }

  /** When the pass completes, the diagnostics it adds contain none of the
      hidden kinds. */
  lemma CheckProgramHidesLadder(t: Table, p: Program)
    requires Valid(t)
    ensures CheckProgram(t, p).Ok? ==> NoneHidden(CheckProgram(t, p).value.errors[|t.errors|..])
  {
    ProgramHidesLadder(t, p, 0);
    var ds := DeclsTyped(t, p, 0);
    if ds.Ok? {
      var m := MainDiags(t);
      assert NoneHidden(m);
      NoneHiddenAppend(ds.value, m);
      assert CheckProgram(t, p).value.errors[|t.errors|..] == ds.value + m;
    }
  }

  // ---------------------------------------------------------------------
  // Where the walk throws
  // ---------------------------------------------------------------------

  /** Whether the walk of `e` meets an assignment: anywhere except inside the
      indices of an element access, which the walk never visits. */
  predicate HasAssign(e: Expr) {
    match e
    case Assign(_, _) => true
    case Paren(inner) => HasAssign(inner)
    case Not(x) => HasAssign(x)
    case Neg(x) => HasAssign(x)
    case Call(_, args) => exists k :: 0 <= k < |args| && HasAssign(args[k])
    case Chain(_, first, rest) => HasAssign(first) || exists k :: 0 <= k < |rest| && HasAssign(rest[k].operand)
    case _ => false
  }

  predicate OptHasAssign(e: Option<Expr>) {
    e.Some? && HasAssign(e.value)
  }

  predicate DeclHasAssign(d: VarDecl) {
    exists k :: 0 <= k < |d.decls| && OptHasAssign(d.decls[k].init)
  }

  predicate StmtHasAssign(s: Stmt) {
    match s
    case Decl(d) => DeclHasAssign(d)
    case ExprStmt(e) => OptHasAssign(e)
    case Return(v) => OptHasAssign(v)
    case If(c, s1, s2) => HasAssign(c) || StmtHasAssign(s1) || (s2.Some? && StmtHasAssign(s2.value))
    case While(c, body) => HasAssign(c) || StmtHasAssign(body)
    case For(i, c, st, body) => OptHasAssign(i) || OptHasAssign(c) || OptHasAssign(st) || StmtHasAssign(body)
    case Nested(b) => BlockHasAssign(b)
  }

  predicate BlockHasAssign(b: Block) {
    exists k :: 0 <= k < |b.stmts| && StmtHasAssign(b.stmts[k])
  }

  predicate TopHasAssign(d: TopDecl) {
    match d
    case GlobalVars(vd) => DeclHasAssign(vd)
    case Function(f) => BlockHasAssign(f.body)
  }

  predicate ProgramHasAssign(p: Program) {
    exists i :: 0 <= i < |p.decls| && TopHasAssign(p.decls[i])
  }

  /** An expression's walk throws exactly when it meets an assignment. */
  lemma {:induction false} ThrowsOnAssign(t: Table, sc: nat, e: Expr, d: int)
    requires Valid(t) && sc < |t.scopes| && -1 <= d <= 6
    ensures TypeAt(t, sc, e, d).Thrown? <==> HasAssign(e)
    decreases e, 1, 6 - d
  {
    if d < NaturalDepth(e) {
      ThrowsOnAssign(t, sc, e, d + 1);
    } else {
      match e
      case Paren(inner) => ThrowsOnAssign(t, sc, inner, -1);
      case Not(x) => ThrowsOnAssign(t, sc, x, 6);
      case Neg(x) => ThrowsOnAssign(t, sc, x, 6);
      case Call(_, _) => ArgsThrowOnAssign(t, sc, e, 0);
      case Chain(l, first, _) =>
        ThrowsOnAssign(t, sc, first, Depth(l) + 1);
        var r := TypeAt(t, sc, first, Depth(l) + 1);
        if r.Ok? { LinksThrowOnAssign(t, sc, e, 0, r.value.ty); }
      case _ =>
    }
  }

  lemma {:induction false} ArgsThrowOnAssign(t: Table, sc: nat, e: Expr, i: nat)
    requires Valid(t) && sc < |t.scopes| && e.Call? && i <= |e.args|
    ensures ArgsTyped(t, sc, e, i).Thrown? <==> exists k :: i <= k < |e.args| && HasAssign(e.args[k])
    decreases e, 0, |e.args| - i
  {
    if i < |e.args| {
      assert e.args[i] in e.args;
      ThrowsOnAssign(t, sc, e.args[i], -1);
      ArgsThrowOnAssign(t, sc, e, i + 1);
    }
  }

  lemma {:induction false} LinksThrowOnAssign(t: Table, sc: nat, e: Expr, i: nat, acc: Type)
    requires Valid(t) && sc < |t.scopes| && e.Chain? && i <= |e.rest|
    ensures LinksTyped(t, sc, e, i, acc).Thrown? <==> exists k :: i <= k < |e.rest| && HasAssign(e.rest[k].operand)
    decreases e, 0, |e.rest| - i
  {
    if i < |e.rest| {
      assert e.rest[i] in e.rest;
      var x := e.rest[i].operand;
      ThrowsOnAssign(t, sc, x, Depth(e.level) + 1);
      var r := TypeAt(t, sc, x, Depth(e.level) + 1);
      if r.Ok? {
        LinksThrowOnAssign(t, sc, e, i + 1, LinkRule(e.level, acc, r.value.ty).1);
      }
    }
  }

  lemma {:induction false} OptThrowsOnAssign(t: Table, sc: nat, e: Option<Expr>)
    requires Valid(t) && sc < |t.scopes|
    ensures OptDiags(t, sc, e).Thrown? <==> OptHasAssign(e)
  {
    if e.Some? { ThrowsOnAssign(t, sc, e.value, -1); }
  }

  lemma {:induction false} DeclThrowsOnAssign(t: Table, sc: nat, d: VarDecl, i: nat)
    requires Valid(t) && sc < |t.scopes| && i <= |d.decls|
    ensures DeclTyped(t, sc, d, i).Thrown? <==> exists k :: i <= k < |d.decls| && OptHasAssign(d.decls[k].init)
    decreases |d.decls| - i
  {
    if i < |d.decls| {
      var init := d.decls[i].init;
      if init.Some? { ThrowsOnAssign(t, sc, init.value, -1); }
      DeclThrowsOnAssign(t, sc, d, i + 1);
    }
  }

  lemma {:induction false} StmtThrowsOnAssign(t: Table, sc: nat, cf: Option<FuncSymbol>, s: Stmt)
    requires Valid(t) && sc < |t.scopes|
    ensures StmtTyped(t, sc, cf, s).Thrown? <==> StmtHasAssign(s)
    decreases s, 0, 0
  {
    match s
    case Decl(d) => DeclThrowsOnAssign(t, sc, d, 0);
    case ExprStmt(e) => OptThrowsOnAssign(t, sc, e);
    case Return(v) => if v.Some? { ThrowsOnAssign(t, sc, v.value, -1); }
    case If(c, s1, s2) =>
      ThrowsOnAssign(t, sc, c, -1);
      StmtThrowsOnAssign(t, sc, cf, s1);
      if s2.Some? { StmtThrowsOnAssign(t, sc, cf, s2.value); }
    case While(c, body) =>
      ThrowsOnAssign(t, sc, c, -1);
      StmtThrowsOnAssign(t, sc, cf, body);
    case For(i, c, st, body) =>
      OptThrowsOnAssign(t, sc, i);
      OptThrowsOnAssign(t, sc, c);
      OptThrowsOnAssign(t, sc, st);
      StmtThrowsOnAssign(t, sc, cf, body);
    case Nested(b) => BlockThrowsOnAssign(t, sc, cf, b);
  }

  lemma {:induction false} BlockThrowsOnAssign(t: Table, sc: nat, cf: Option<FuncSymbol>, b: Block)
    requires Valid(t) && sc < |t.scopes|
    ensures BlockTyped(t, sc, cf, b).Thrown? <==> BlockHasAssign(b)
    decreases b, 2, 0
  {
    StmtsThrowOnAssign(t, BlockScope(t, sc, b), cf, b, 0);
  }

  lemma {:induction false} StmtsThrowOnAssign(t: Table, sc: nat, cf: Option<FuncSymbol>, b: Block, i: nat)
    requires Valid(t) && sc < |t.scopes| && i <= |b.stmts|
    ensures StmtsTyped(t, sc, cf, b, i).Thrown? <==> exists k :: i <= k < |b.stmts| && StmtHasAssign(b.stmts[k])
    decreases b, 1, |b.stmts| - i
  {
    if i < |b.stmts| {
      assert b.stmts[i] in b.stmts;
      StmtThrowsOnAssign(t, sc, cf, b.stmts[i]);
      StmtsThrowOnAssign(t, sc, cf, b, i + 1);
    }
  }

  lemma {:induction false} TopThrowsOnAssign(t: Table, d: TopDecl)
    requires Valid(t)
    ensures TopTyped(t, d).Thrown? <==> TopHasAssign(d)
  {
    match d
    case GlobalVars(vd) => DeclThrowsOnAssign(t, Current(t), vd, 0);
    case Function(f) =>
      var s := Resolve(t.scopes, Current(t), f.name);
      if s.Some? && s.value.Func? {
        BlockThrowsOnAssign(t, Current(t), Some(s.value.f), f.body);
      } else {
        BlockThrowsOnAssign(t, Current(t), None, f.body);
      }
  }

  lemma {:induction false} DeclsThrowOnAssign(t: Table, p: Program, i: nat)
    requires Valid(t) && i <= |p.decls|
    ensures DeclsTyped(t, p, i).Thrown? <==> exists k :: i <= k < |p.decls| && TopHasAssign(p.decls[k])
    decreases |p.decls| - i
  {
    if i < |p.decls| {
      TopThrowsOnAssign(t, p.decls[i]);
      DeclsThrowOnAssign(t, p, i + 1);
    }
  }

  /** The pass throws exactly when the program holds an assignment
      expression the walk reaches; every other program completes. */
  lemma CheckProgramThrows(t: Table, p: Program)
    requires Valid(t)
    ensures CheckProgram(t, p).Thrown? <==> ProgramHasAssign(p)
  {
    DeclsThrowOnAssign(t, p, 0);
  }

  /** In particular an assignment statement `x = e;` anywhere at the top of a
      function body aborts the pass. */
  lemma AssignmentStatementThrows(t: Table, p: Program, i: nat, j: nat, lv: LValue, rhs: Expr)
    requires Valid(t) && i < |p.decls| && p.decls[i].Function?
    requires j < |p.decls[i].f.body.stmts| && p.decls[i].f.body.stmts[j] == ExprStmt(Some(Assign(lv, rhs)))
    ensures CheckProgram(t, p).Thrown?
  {
    assert StmtHasAssign(p.decls[i].f.body.stmts[j]);
    assert TopHasAssign(p.decls[i]);
    CheckProgramThrows(t, p);
  }

  // ---------------------------------------------------------------------
  // Individual rules
  // ---------------------------------------------------------------------

  /** Every argument of a call is typed as a full expression, hence `int`. */
  lemma {:induction false} ArgsAreInt(t: Table, sc: nat, e: Expr, i: nat)
    requires Valid(t) && sc < |t.scopes| && e.Call? && i <= |e.args|
    ensures var a := ArgsTyped(t, sc, e, i);
      a.Ok? ==> forall k :: 0 <= k < |a.value.0| ==> a.value.0[k] == INT
    decreases |e.args| - i
  {
    if i < |e.args| {
      UpperLevelsAreInt(t, sc, e.args[i], -1);
      ArgsAreInt(t, sc, e, i + 1);
    }
  }

  /** A printer call has type `void` and, after its arguments' diagnostics,
      reports only a wrong argument count; `printString` is rejected
      whatever its argument, because no argument is ever typed `string`. */
  lemma PrinterCall(t: Table, sc: nat, f: string, args: seq<Expr>)
    requires Valid(t) && sc < |t.scopes| && IsPrinter(f)
    ensures var a := ArgsTyped(t, sc, Call(f, args), 0);
      a.Ok? ==> (TypeAt(t, sc, Call(f, args), 6)
        == Ok(Typed(VOID, a.value.1 + if |args| == 1 && f != "printString" then [] else [BuiltinArgs(f)])))
  {
    ArgsAreInt(t, sc, Call(f, args), 0);
  }

  /** A call of a user function that the name resolves to: after the
      arguments' diagnostics it reports nothing exactly when the arity
      matches and every parameter is an `int`, since every argument is. */
  lemma UserCall(t: Table, sc: nat, f: string, args: seq<Expr>)
    requires Valid(t) && sc < |t.scopes| && !IsPrinter(f)
    requires Resolve(t.scopes, sc, f).Some? && Resolve(t.scopes, sc, f).value.Func?
    ensures var fs := Resolve(t.scopes, sc, f).value.f;
      var a := ArgsTyped(t, sc, Call(f, args), 0);
      var r := TypeAt(t, sc, Call(f, args), 6);
      a.Ok? ==> (
        && r.Ok? && r.value.ty == fs.ty
        && |a.value.1| <= |r.value.diags| && r.value.diags[..|a.value.1|] == a.value.1
        && (|r.value.diags| == |a.value.1| <==>
              |fs.params| == |args| && forall k :: 0 <= k < |args| ==> fs.params[k].ty == INT))
  {
    var e := Call(f, args);
    var a := ArgsTyped(t, sc, e, 0);
    ArgsAreInt(t, sc, e, 0);
    if a.Ok? {
      var c := CallRule(t, sc, f, a.value.0);
      assert TypeAt(t, sc, e, 6).value.diags == a.value.1 + c.diags;
    }
  }

  /** A call of a name that is not a function reports it undeclared. */
  lemma UndeclaredCall(t: Table, sc: nat, f: string, args: seq<Expr>)
    requires Valid(t) && sc < |t.scopes| && !IsPrinter(f)
    requires !(Resolve(t.scopes, sc, f).Some? && Resolve(t.scopes, sc, f).value.Func?)
    ensures var a := ArgsTyped(t, sc, Call(f, args), 0);
      a.Ok? ==> TypeAt(t, sc, Call(f, args), 6) == Ok(Typed(INT, a.value.1 + [UndeclaredFunc(f)]))
  {
  }

  /** After at least one link, a `||`, `&&`, `+` or `*` chain's running type
      is `int`; equality and relational chains keep the first operand's. */
  lemma {:induction false} LinksType(t: Table, sc: nat, e: Expr, i: nat, acc: Type)
    requires Valid(t) && sc < |t.scopes| && e.Chain? && i <= |e.rest|
    ensures LinksTyped(t, sc, e, i, acc).Ok? ==> (LinksTyped(t, sc, e, i, acc).value.ty
      == if i == |e.rest| || e.level == EqLevel || e.level == RelLevel then acc else INT)
    decreases |e.rest| - i
  {
    if i < |e.rest| {
      var r := TypeAt(t, sc, e.rest[i].operand, Depth(e.level) + 1);
      if r.Ok? {
        LinksType(t, sc, e, i + 1, LinkRule(e.level, acc, r.value.ty).1);
      }
    }
  }

  /** An additive or multiplicative chain yields its single operand's type
      when it has no operator, and `int` otherwise. */
  lemma ArithChainType(t: Table, sc: nat, l: Level, first: Expr, rest: seq<Link>)
    requires Valid(t) && sc < |t.scopes| && (l == AddLevel || l == MulLevel)
    ensures var c := TypeAt(t, sc, Chain(l, first, rest), Depth(l));
      c.Ok? ==> c.value.ty == if |rest| == 0 then TypeAt(t, sc, first, Depth(l) + 1).value.ty else INT
  {
    var r := TypeAt(t, sc, first, Depth(l) + 1);
    if r.Ok? {
      LinksType(t, sc, Chain(l, first, rest), 0, r.value.ty);
    }
  }

  /** `a + b`: the sum is `int`, and after the operands' diagnostics it
      reports exactly when an operand is not numeric. */
  lemma AddRule(t: Table, sc: nat, a: Expr, op: BinOp, b: Expr)
    requires Valid(t) && sc < |t.scopes|
    ensures var ra := TypeAt(t, sc, a, 5);
      var rb := TypeAt(t, sc, b, 5);
      ra.Ok? && rb.Ok? ==>
        TypeAt(t, sc, Chain(AddLevel, a, [Link(op, b)]), 4)
          == Ok(Typed(INT, ra.value.diags + rb.value.diags
                  + if IsNumeric(ra.value.ty) && IsNumeric(rb.value.ty) then [] else [AddOperands(ra.value.ty, rb.value.ty)]))
  {
    var e := Chain(AddLevel, a, [Link(op, b)]);
    var ra := TypeAt(t, sc, a, 5);
    var rb := TypeAt(t, sc, b, 5);
    if ra.Ok? && rb.Ok? {
      var lr := LinkRule(AddLevel, ra.value.ty, rb.value.ty);
      assert LinksTyped(t, sc, e, 1, INT) == Ok(Typed(INT, []));
      assert LinksTyped(t, sc, e, 0, ra.value.ty) == Ok(Typed(INT, rb.value.diags + lr.0 + []));
      assert TypeAt(t, sc, e, 4) == Ok(Typed(INT, ra.value.diags + [] + (rb.value.diags + lr.0 + [])));
      assert ra.value.diags + [] + (rb.value.diags + lr.0 + []) == ra.value.diags + rb.value.diags + lr.0;
    }
  }

  /** A `return` inside function `fs`: a bare `return` is rejected exactly
      outside `void` functions; a `return e` (typed `int`) exactly outside
      `int` and `char` functions. */
  lemma ReturnStmt(t: Table, sc: nat, fs: FuncSymbol, v: Option<Expr>)
    requires Valid(t) && sc < |t.scopes|
    ensures v.None? ==>
      StmtTyped(t, sc, Some(fs), Return(v)) == Ok(if fs.ty == VOID then [] else [BadReturn(VOID, fs.name, fs.ty)])
    ensures v.Some? && TypeAt(t, sc, v.value, -1).Ok? ==>
      StmtTyped(t, sc, Some(fs), Return(v)) == Ok(TypeAt(t, sc, v.value, -1).value.diags
        + if fs.ty == INT || fs.ty == CHAR then [] else [BadReturn(INT, fs.name, fs.ty)])
  {
    if v.Some? { UpperLevelsAreInt(t, sc, v.value, -1); }
  }

  /** Outside any function nothing is checked about a `return`. */
  lemma ReturnOutsideFunction(found: Type)
    ensures ReturnRule(found, None) == []
  {
  }

  /** A declarator with an initialiser: after the initialiser's
      diagnostics, it is rejected exactly when the declared type is neither
      `int` nor `char` (so `string s = "x";` and `bool b = true;` are). */
  lemma InitRule(t: Table, sc: nat, ty: string, x: string, dims: seq<int>, e: Expr)
    requires Valid(t) && sc < |t.scopes|
    ensures var declT := FromToken(ty);
      TypeAt(t, sc, e, -1).Ok? ==>
        DeclTyped(t, sc, VarDecl(ty, [Declarator(x, dims, Some(e))]), 0)
          == Ok(TypeAt(t, sc, e, -1).value.diags + if declT == INT || declT == CHAR then [] else [BadInit(declT, INT)])
  {
    var d := VarDecl(ty, [Declarator(x, dims, Some(e))]);
    var r := TypeAt(t, sc, e, -1);
    UpperLevelsAreInt(t, sc, e, -1);
    if r.Ok? {
      var declT := FromToken(ty);
      var bad := if declT == INT || declT == CHAR then [] else [BadInit(declT, INT)];
      assert AssignmentCompatible(declT, INT) <==> declT == INT || declT == CHAR;
      assert InitTyped(t, sc, ty, Some(e)) == Ok(r.value.diags + bad);
      assert DeclTyped(t, sc, d, 1) == Ok([]);
      assert DeclTyped(t, sc, d, 0) == Ok(r.value.diags + bad + []);
      assert r.value.diags + bad + [] == r.value.diags + bad;
    }
  }

  /** The entry-point check is silent exactly when `main` resolves to a
      parameterless `int` function, and reports a missing `main` exactly
      when the name is not a function. */
  lemma MainRule(t: Table)
    requires Valid(t)
    ensures var s := Resolve(t.scopes, Current(t), "main");
      && (MainDiags(t) == [] <==> s.Some? && s.value.Func? && s.value.f.ty == INT && |s.value.f.params| == 0)
      && (MainDiags(t) == [MissingMain] <==> !(s.Some? && s.value.Func?))
  {
    var s := Resolve(t.scopes, Current(t), "main");
    if s.Some? && s.value.Func? && MainDiags(t) != [] {
      assert MainDiags(t)[0].MainNotInt? || MainDiags(t)[0].MainHasParams?;
    }
  }

  /** A quoted text is typed as a string, a single-quoted one of at least
      three characters as a char, and a digit string as an int. */
  lemma LiteralKinds(body: string)
    ensures LiteralType("\"" + body + "\"") == STRING
    ensures LiteralType("'" + body + "'") == (if |body| >= 1 then CHAR else INT)
    ensures (forall k :: 0 <= k < |body| ==> '0' <= body[k] <= '9') ==> LiteralType(body) == INT
  {
    var q := "'" + body + "'";
    assert q[0] == '\'' && q[|q| - 1] == '\'';
    if |body| > 0 && forall k :: 0 <= k < |body| ==> '0' <= body[k] <= '9' {
      assert '0' <= body[0] <= '9';
    }
  }

  /** `!x` and `-x` yield `int`; `!` rejects an operand that is neither
      `int` nor `bool`, `-` one that is not `int` (so `-'a'` is rejected). */
  lemma UnaryRules(t: Table, sc: nat, x: Expr)
    requires Valid(t) && sc < |t.scopes|
    ensures var r := TypeAt(t, sc, x, 6);
      r.Ok? ==> (
        && TypeAt(t, sc, Not(x), 6) == Ok(Typed(INT, r.value.diags + if IntOrBool(r.value.ty) then [] else [NotOperand]))
        && TypeAt(t, sc, Neg(x), 6) == Ok(Typed(INT, r.value.diags + if r.value.ty == INT then [] else [NegOperand])))
  {
  }

  /** `a < b`: the comparison is `int`, and after the operands' diagnostics
      it reports exactly when an operand is neither `int` nor `bool`; a
      `char` operand is rejected. */
  lemma RelRule(t: Table, sc: nat, a: Expr, op: BinOp, b: Expr)
    requires Valid(t) && sc < |t.scopes|
    ensures var ra := TypeAt(t, sc, a, 4);
      var rb := TypeAt(t, sc, b, 4);
      ra.Ok? && rb.Ok? ==>
        TypeAt(t, sc, Chain(RelLevel, a, [Link(op, b)]), 3)
          == Ok(Typed(INT, ra.value.diags + rb.value.diags
                  + if IntOrBool(ra.value.ty) && IntOrBool(rb.value.ty) then [] else [RelOperands]))
  {
    var e := Chain(RelLevel, a, [Link(op, b)]);
    var ra := TypeAt(t, sc, a, 4);
    var rb := TypeAt(t, sc, b, 4);
    if ra.Ok? && rb.Ok? {
      var lr := LinkRule(RelLevel, ra.value.ty, rb.value.ty);
      assert LinksTyped(t, sc, e, 1, ra.value.ty) == Ok(Typed(ra.value.ty, []));
      assert LinksTyped(t, sc, e, 0, ra.value.ty) == Ok(Typed(ra.value.ty, rb.value.diags + lr.0 + []));
      assert TypeAt(t, sc, e, 3) == Ok(Typed(INT, ra.value.diags + [] + (rb.value.diags + lr.0 + [])));
      assert ra.value.diags + [] + (rb.value.diags + lr.0 + []) == ra.value.diags + rb.value.diags + lr.0;
    }
  }

  /** A bare name used as a value is rejected unless it names a variable;
      a function name is rejected too. */
  lemma NameRule(t: Table, sc: nat, x: string)
    requires Valid(t) && sc < |t.scopes|
    ensures TypeAt(t, sc, Name(x), 6).Ok?
    ensures TypeAt(t, sc, Name(x), 6).value.diags == [] <==>
      Resolve(t.scopes, sc, x).Some? && Resolve(t.scopes, sc, x).value.Var?
  {
  }
}
