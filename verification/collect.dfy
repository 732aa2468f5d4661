/** The symbol-collection pass (semantics/CollectSymbols.java): defines every
    declared variable, function and parameter, creates one scope per block,
    and records on each block the scope created for it.

    The table is threaded through the traversal. A function symbol is built
    with its final parameter list and body scope before it is defined; the
    source fills those in on the same object right after defining it, before
    anything reads it, so the stored symbol is the same. When the function's
    define is refused, the source's object is discarded and so is ours. */
module Collect {
  import opened Common
  import opened Types
  import opened Symbols
  import opened Diagnostics
  import opened Scopes
  import opened Ast

  /** Which follow-up diagnostic a refused define gets. */
  datatype DupKind = VarDup | ParamDup

  function DupDiag(k: DupKind, name: string): Diag {
    match k
    case VarDup => VarRedefinition(name)
    case ParamDup => DuplicateParam(name)
  }

  /** `vs[i]` is the first of its name and its name is not yet in `m`: its
      define succeeds. */
  predicate FirstFresh(m: map<string, Symbol>, vs: seq<VarSymbol>, i: nat)
    requires i < |vs|
  {
    && vs[i].name !in m
    && forall j :: 0 <= j < i ==> vs[j].name != vs[i].name
  }

  function Names(vs: seq<VarSymbol>): set<string> {
    set i | 0 <= i < |vs| :: vs[i].name
  }

  lemma NamesCons(vs: seq<VarSymbol>)
    requires |vs| > 0
    ensures Names(vs) == {vs[0].name} + Names(vs[1..])
  {
    forall x | x in Names(vs)
      ensures x in {vs[0].name} + Names(vs[1..])
    {
      var i :| 0 <= i < |vs| && vs[i].name == x;
      if i > 0 { assert vs[1..][i - 1].name == x; }
    }
    forall x | x in Names(vs[1..])
      ensures x in Names(vs)
    {
      var i :| 0 <= i < |vs[1..]| && vs[1..][i].name == x;
      assert vs[i + 1].name == x;
    }
  }

  /** The diagnostics of refused defines come in pairs: the table's own
      redefinition message for `scope`, then the pass's message for the same name. */
  predicate RedefPairs(ds: seq<Diag>, scope: string, k: DupKind)
    decreases |ds|
  {
    || ds == []
    || (&& |ds| >= 2
        && ds[0].Redefinition? && ds[0].scope == scope
        && ds[1] == DupDiag(k, ds[0].name)
        && RedefPairs(ds[2..], scope, k))
  }

  lemma {:induction false} RedefPairsAppend(a: seq<Diag>, b: seq<Diag>, scope: string, k: DupKind)
    requires RedefPairs(a, scope, k) && RedefPairs(b, scope, k)
    ensures RedefPairs(a + b, scope, k)
    decreases |a|
  {
    if a != [] {
      assert |a| >= 2 && RedefPairs(a[2..], scope, k);
      RedefPairsAppend(a[2..], b, scope, k);
      assert (a + b)[0] == a[0] && (a + b)[1] == a[1];
      assert (a + b)[2..] == a[2..] + b;
    } else {
      assert a + b == b;
    }
  }

  /** One define into the current scope, followed by the pass's diagnostic
      when it is refused. */
  function DefineOne(t: Table, v: VarSymbol, k: DupKind): (r: Table)
    requires Valid(t)
    ensures Valid(r) && r.stack == t.stack
    ensures var s := t.scopes[Current(t)];
      v.name in s.symbols ==>
        r.scopes == t.scopes && r.errors == t.errors + [Redefinition(s.name, v.name), DupDiag(k, v.name)]
    ensures var m := t.scopes[Current(t)].symbols;
      v.name !in m ==> r.scopes == WithSymbols(t.scopes, Current(t), m[v.name := Var(v)]) && r.errors == t.errors
  {
    var (t1, ok) := Define(t, Var(v));
    if ok then t1 else Error(t1, DupDiag(k, v.name))
  }

  /** Defines each variable in the current scope, in order. */
  function DefineAll(t: Table, vs: seq<VarSymbol>, k: DupKind): (r: Table)
    requires Valid(t)
    ensures Valid(r) && r.stack == t.stack && t.errors <= r.errors
    ensures r.scopes == WithSymbols(t.scopes, Current(t), r.scopes[Current(t)].symbols)
    decreases |vs|
  {
    if |vs| == 0 then t
    else DefineAll(DefineOne(t, vs[0], k), vs[1..], k)
  }

  /** The effect of `DefineAll` on the current scope's map, written as a
      fold: the first binding of each name wins. */
  function BindAll(m: map<string, Symbol>, vs: seq<VarSymbol>): map<string, Symbol>
    decreases |vs|
  {
    if |vs| == 0 then m
    else BindAll(if vs[0].name in m then m else m[vs[0].name := Var(vs[0])], vs[1..])
  }

  lemma {:induction false} DefineAllIsBindAll(t: Table, vs: seq<VarSymbol>, k: DupKind)
    requires Valid(t)
    ensures DefineAll(t, vs, k).scopes[Current(t)].symbols == BindAll(t.scopes[Current(t)].symbols, vs)
    decreases |vs|
  {
    if |vs| > 0 {
      var c := Current(t);
      var m := t.scopes[c].symbols;
      var t1 := DefineOne(t, vs[0], k);
      if vs[0].name in m {
        assert t1.scopes == t.scopes && Current(t1) == c;
      } else {
        assert Current(t1) == c && t1.scopes[c].symbols == m[vs[0].name := Var(vs[0])];
      }
      DefineAllIsBindAll(t1, vs[1..], k);
    }
  }

  /** Every name ends up bound, earlier bindings win, and a variable is stored
      exactly when it is the first of its name and its name was new. */
  lemma {:induction false} BindAllSpec(m: map<string, Symbol>, vs: seq<VarSymbol>)
    ensures BindAll(m, vs).Keys == m.Keys + Names(vs)
    ensures forall x :: x in m ==> BindAll(m, vs)[x] == m[x]
    ensures forall i :: 0 <= i < |vs| && FirstFresh(m, vs, i) ==> BindAll(m, vs)[vs[i].name] == Var(vs[i])
    decreases |vs|
  {
    if |vs| > 0 {
      var m1 := if vs[0].name in m then m else m[vs[0].name := Var(vs[0])];
      assert m1.Keys == m.Keys + {vs[0].name};
      BindAllSpec(m1, vs[1..]);
      NamesCons(vs);
      forall i | 0 <= i < |vs| && FirstFresh(m, vs, i)
        ensures BindAll(m, vs)[vs[i].name] == Var(vs[i])
      {
        if i > 0 {
          forall j | 0 <= j < i - 1 ensures vs[1..][j].name != vs[1..][i - 1].name {
            assert vs[1..][j] == vs[j + 1];
          }
          assert FirstFresh(m1, vs[1..], i - 1);
        }
      }
    }
  }

  /** What `DefineAll` does to the current scope. */
  lemma DefineAllBindings(t: Table, vs: seq<VarSymbol>, k: DupKind)
    requires Valid(t)
    ensures var m := t.scopes[Current(t)].symbols;
      var m' := DefineAll(t, vs, k).scopes[Current(t)].symbols;
      && m'.Keys == m.Keys + Names(vs)
      && (forall x :: x in m ==> m'[x] == m[x])
      && (forall i :: 0 <= i < |vs| && FirstFresh(m, vs, i) ==> m'[vs[i].name] == Var(vs[i]))
  {
    DefineAllIsBindAll(t, vs, k);
    BindAllSpec(t.scopes[Current(t)].symbols, vs);
  }

  /** The diagnostics `DefineAll` appends, written as a fold over the
      scope's map: a refused define yields the table's message, then the
      pass's message. */
  function RedefDiags(m: map<string, Symbol>, vs: seq<VarSymbol>, scope: string, k: DupKind): seq<Diag>
    decreases |vs|
  {
    if |vs| == 0 then []
    else if vs[0].name in m then
      [Redefinition(scope, vs[0].name), DupDiag(k, vs[0].name)] + RedefDiags(m, vs[1..], scope, k)
    else RedefDiags(m[vs[0].name := Var(vs[0])], vs[1..], scope, k)
  }

  lemma {:induction false} DefineAllIsRedefDiags(t: Table, vs: seq<VarSymbol>, k: DupKind)
    requires Valid(t)
    ensures var s := t.scopes[Current(t)];
      DefineAll(t, vs, k).errors == t.errors + RedefDiags(s.symbols, vs, s.name, k)
    decreases |vs|
  {
    if |vs| > 0 {
      var c := Current(t);
      var s := t.scopes[c];
      var v := vs[0];
      var t1 := DefineOne(t, v, k);
      if v.name in s.symbols {
        assert t1.scopes == t.scopes && Current(t1) == c;
        DefineAllIsRedefDiags(t1, vs[1..], k);
        var pair := [Redefinition(s.name, v.name), DupDiag(k, v.name)];
        assert t1.errors == t.errors + pair;
        AppendAssoc(t.errors, pair, RedefDiags(s.symbols, vs[1..], s.name, k));
      } else {
        var m1 := s.symbols[v.name := Var(v)];
        assert Current(t1) == c && t1.scopes[c] == Scope(s.name, s.parent, m1);
        DefineAllIsRedefDiags(t1, vs[1..], k);
      }
    }
  }

  /** Nothing is reported exactly when every define succeeds; otherwise the
      messages come two per refusal. */
  lemma {:induction false} RedefDiagsSpec(m: map<string, Symbol>, vs: seq<VarSymbol>, scope: string, k: DupKind)
    ensures RedefDiags(m, vs, scope, k) == [] <==> forall i :: 0 <= i < |vs| ==> FirstFresh(m, vs, i)
    ensures RedefPairs(RedefDiags(m, vs, scope, k), scope, k)
    decreases |vs|
  {
    if |vs| > 0 {
      var m1 := if vs[0].name in m then m else m[vs[0].name := Var(vs[0])];
      RedefDiagsSpec(m1, vs[1..], scope, k);
      forall i | 1 <= i < |vs|
        ensures FirstFresh(m, vs, i) <==> FirstFresh(m1, vs[1..], i - 1)
      {
        if FirstFresh(m1, vs[1..], i - 1) {
          forall j | 0 <= j < i ensures vs[j].name != vs[i].name {
            if j > 0 { assert vs[1..][j - 1] == vs[j]; }
          }
        }
        if FirstFresh(m, vs, i) {
          forall j | 0 <= j < i - 1 ensures vs[1..][j].name != vs[1..][i - 1].name {
            assert vs[1..][j] == vs[j + 1];
          }
        }
      }
      var d := RedefDiags(m, vs, scope, k);
      if vs[0].name in m {
        assert !FirstFresh(m, vs, 0);
        assert d[2..] == RedefDiags(m, vs[1..], scope, k);
        assert d[0] == Redefinition(scope, vs[0].name) && d[1] == DupDiag(k, vs[0].name);
      } else {
        assert FirstFresh(m, vs, 0);
        assert d == RedefDiags(m1, vs[1..], scope, k);
        if forall i :: 0 <= i < |vs| ==> FirstFresh(m, vs, i) {
          forall i | 0 <= i < |vs| - 1 ensures FirstFresh(m1, vs[1..], i) {
            assert FirstFresh(m, vs, i + 1);
          }
        }
        if d == [] {
          forall i | 0 <= i < |vs| ensures FirstFresh(m, vs, i) {
            if i > 0 { assert FirstFresh(m1, vs[1..], i - 1); }
          }
        }
      }
    }
  }

  /** What `DefineAll` appends to the errors. */
  lemma DefineAllErrors(t: Table, vs: seq<VarSymbol>, k: DupKind)
    requires Valid(t)
    ensures var m := t.scopes[Current(t)].symbols;
      var r := DefineAll(t, vs, k);
      && (r.errors == t.errors <==> forall i :: 0 <= i < |vs| ==> FirstFresh(m, vs, i))
      && RedefPairs(r.errors[|t.errors|..], t.scopes[Current(t)].name, k)
  {
    var s := t.scopes[Current(t)];
    DefineAllIsRedefDiags(t, vs, k);
    RedefDiagsSpec(s.symbols, vs, s.name, k);
    var r := DefineAll(t, vs, k);
    assert r.errors[|t.errors|..] == RedefDiags(s.symbols, vs, s.name, k);
  }

  /** The scalar variables a declaration introduces, all of the declared type. */
  function DeclSymbols(d: VarDecl): (vs: seq<VarSymbol>)
    ensures |vs| == |d.decls|
    ensures forall i :: 0 <= i < |vs| ==>
      vs[i].name == d.decls[i].name && vs[i].ty == FromToken(d.ty) && !IsArray(vs[i])
  {
    seq(|d.decls|, i requires 0 <= i < |d.decls| => NewScalar(d.decls[i].name, FromToken(d.ty)))
  }

  /** The parameters in source order, duplicates included. */
  function ParamSymbols(ps: seq<Param>): (vs: seq<VarSymbol>)
    ensures |vs| == |ps|
    ensures forall i :: 0 <= i < |vs| ==>
      vs[i].name == ps[i].name && vs[i].ty == FromToken(ps[i].ty) && !IsArray(vs[i])
  {
    seq(|ps|, i requires 0 <= i < |ps| => NewScalar(ps[i].name, FromToken(ps[i].ty)))
  }

  /** visitVarDecl: each declarator becomes a scalar of the declared type,
      whatever its dimensions; initialisers are not visited. */
  function CollectVarDecl(t: Table, d: VarDecl): (r: Table)
    requires Valid(t)
    ensures Valid(r) && r.stack == t.stack && t.errors <= r.errors
    ensures r.scopes == WithSymbols(t.scopes, Current(t), r.scopes[Current(t)].symbols)
  {
    DefineAll(t, DeclSymbols(d), VarDup)
  }

  /** `b` is `a` with more scopes appended and at most the symbol map of
      scope `c` changed: what a traversal does from current scope `c`. */
  predicate Grows(a: Arena, c: nat, b: Arena)
    requires c < |a|
  {
    |a| <= |b| && b[..|a|] == WithSymbols(a, c, b[c].symbols)
  }

  lemma GrowsTrans(a: Arena, c: nat, b: Arena, d: Arena)
    requires c < |a| && Grows(a, c, b) && Grows(b, c, d)
    ensures Grows(a, c, d)
  {
    assert d[..|a|] == d[..|b|][..|a|];
  }

  /** visitBlock: a fresh scope named "block" enclosed by the current one,
      pushed for the statements and popped afterwards. Scopes that existed
      before are left exactly as they were, and the block records the new one. */
  function CollectBlock(t: Table, b: Block): (r: (Table, Block))
    requires Valid(t)
    ensures Valid(r.0) && r.0.stack == t.stack && t.errors <= r.0.errors
    ensures |r.0.scopes| > |t.scopes| && r.0.scopes[..|t.scopes|] == t.scopes
    ensures r.0.scopes[|t.scopes|].name == "block" && r.0.scopes[|t.scopes|].parent == Some(Current(t))
    ensures r.1.scope == |t.scopes| && |r.1.stmts| == |b.stmts|
    decreases b, 2, 0
  {
    var t1 := PushNew(t, "block");
    var (t2, ss) := CollectStmts(t1, b, 0);
    assert t2.scopes[..|t.scopes|] == t2.scopes[..|t1.scopes|][..|t.scopes|];
    (Pop(t2), Block(ss, |t.scopes|))
  }

  /** The statements of `b` from index `i` on, in the current scope. */
  function CollectStmts(t: Table, b: Block, i: nat): (r: (Table, seq<Stmt>))
    requires Valid(t) && i <= |b.stmts|
    ensures Valid(r.0) && r.0.stack == t.stack && t.errors <= r.0.errors
    ensures Grows(t.scopes, Current(t), r.0.scopes)
    ensures |r.1| == |b.stmts| - i
    decreases b, 1, |b.stmts| - i
  {
    if i == |b.stmts| then (t, [])
    else
      assert b.stmts[i] in b.stmts;
      var (t1, s) := CollectStmt(t, b.stmts[i]);
      var (t2, ss) := CollectStmts(t1, b, i + 1);
      GrowsTrans(t.scopes, Current(t), t1.scopes, t2.scopes);
      (t2, [s] + ss)
  }

  /** Declarations define into the current scope; blocks nested anywhere in a
      statement get scopes of their own; expressions hold no blocks. */
  function CollectStmt(t: Table, s: Stmt): (r: (Table, Stmt))
    requires Valid(t)
    ensures Valid(r.0) && r.0.stack == t.stack && t.errors <= r.0.errors
    ensures Grows(t.scopes, Current(t), r.0.scopes)
    decreases s, 0, 0
  {
    match s
    case Decl(d) => (CollectVarDecl(t, d), s)
    case ExprStmt(_) => (t, s)
    case Return(_) => (t, s)
    case If(c, s1, s2) =>
      var (t1, s1') := CollectStmt(t, s1);
      if s2.None? then (t1, If(c, s1', None))
      else
        var (t2, s2') := CollectStmt(t1, s2.value);
        GrowsTrans(t.scopes, Current(t), t1.scopes, t2.scopes);
        (t2, If(c, s1', Some(s2')))
    case While(c, body) =>
      var (t1, body') := CollectStmt(t, body);
      (t1, While(c, body'))
    case For(i, c, st, body) =>
      var (t1, body') := CollectStmt(t, body);
      (t1, For(i, c, st, body'))
    case Nested(b) =>
      var (t1, b') := CollectBlock(t, b);
      (t1, Nested(b'))
  }

  /** The symbol a function declaration defines, given the arena size `n` at
      entry: its parameter scope will be `n` and its body scope `n + 1`. */
  function FuncSymbolOf(f: FuncDecl, n: nat): FuncSymbol {
    FuncSymbol(f.name, FromToken(f.ty), ParamSymbols(f.params), Some(n + 1))
  }

  /** The function's define, followed by the pass's message when refused. */
  function DefineFunction(t: Table, f: FuncDecl): (r: Table)
    requires Valid(t)
    ensures Valid(r) && r.stack == t.stack
    ensures var m := t.scopes[Current(t)].symbols;
      && r.scopes == WithSymbols(t.scopes, Current(t),
                                 if f.name in m then m else m[f.name := Func(FuncSymbolOf(f, |t.scopes|))])
      && r.errors == t.errors + if f.name in m then [Redefinition(t.scopes[Current(t)].name, f.name), FuncRedefinition(f.name)] else []
  {
    var (t1, ok) := Define(t, Func(FuncSymbolOf(f, |t.scopes|)));
    if ok then t1 else Error(t1, FuncRedefinition(f.name))
  }

  /** The parameter scope "func f", enclosed by the current scope, with every
      parameter defined in it; it stays pushed. */
  function EnterParams(t: Table, f: FuncDecl): (r: Table)
    requires Valid(t)
    ensures Valid(r) && r.stack == t.stack + [|t.scopes|] && t.errors <= r.errors
    ensures |r.scopes| == |t.scopes| + 1 && r.scopes[..|t.scopes|] == t.scopes
    ensures r.scopes[|t.scopes|].name == "func " + f.name && r.scopes[|t.scopes|].parent == Some(Current(t))
  {
    var t1 := PushNew(t, "func " + f.name);
    var t2 := DefineAll(t1, ParamSymbols(f.params), ParamDup);
    assert t2.scopes[..|t.scopes|] == t1.scopes[..|t.scopes|];
    t2
  }

  /** The table just before the body is visited: the define, the parameter
      scope, and the pushed scope "block of f". */
  function BeforeBody(t: Table, f: FuncDecl): (r: Table)
    requires Valid(t)
    ensures var e := EnterParams(DefineFunction(t, f), f);
      && Valid(r) && r.stack == t.stack + [|t.scopes|, |t.scopes| + 1]
      && r.scopes == e.scopes + [Scope("block of " + f.name, Some(|t.scopes|), map[])]
      && r.errors == e.errors && Current(r) == |t.scopes| + 1
  {
    PushNew(EnterParams(DefineFunction(t, f), f), "block of " + f.name)
  }

  /** visitFunctionDecl: the define, the parameter scope, the scope "block of f"
      that the symbol records, then the body visited as a block, which gets
      yet another scope; both function scopes are popped afterwards. The body
      only appends scopes and diagnostics to the table `BeforeBody` gives. */
  function CollectFunction(t: Table, f: FuncDecl): (r: (Table, FuncDecl))
    requires Valid(t)
    ensures Valid(r.0) && r.0.stack == t.stack && t.errors <= r.0.errors
    ensures Grows(t.scopes, Current(t), r.0.scopes) && |r.0.scopes| >= |t.scopes| + 3
    ensures var b := BeforeBody(t, f);
      && r.0.scopes[..|b.scopes|] == b.scopes && b.errors <= r.0.errors
      && r.0.scopes[|t.scopes| + 2].name == "block" && r.0.scopes[|t.scopes| + 2].parent == Some(|t.scopes| + 1)
    ensures r.1.name == f.name && r.1.ty == f.ty && r.1.params == f.params
    ensures r.1.body.scope == |t.scopes| + 2
  {
    var t3 := BeforeBody(t, f);
    var (t4, body) := CollectBlock(t3, f.body);
    CloseFunction(t, f, t3, t4);
    (Pop(Pop(t4)), FuncDecl(f.ty, f.name, f.params, body))
  }

  /** Popping both function scopes after the body: whatever the body appended
      after `BeforeBody`, the scopes that existed before the function grew only
      by its symbol, and the stack is back where it was. */
  lemma CloseFunction(t: Table, f: FuncDecl, t3: Table, t4: Table)
    requires Valid(t) && t3 == BeforeBody(t, f)
    requires Valid(t4) && t4.stack == t3.stack && t3.errors <= t4.errors
    requires |t4.scopes| > |t3.scopes| && t4.scopes[..|t3.scopes|] == t3.scopes
    requires t4.scopes[|t3.scopes|].name == "block" && t4.scopes[|t3.scopes|].parent == Some(Current(t3))
    ensures |t4.stack| > 2
    ensures var r := Pop(Pop(t4));
      && Valid(r) && r.stack == t.stack && t.errors <= r.errors
      && Grows(t.scopes, Current(t), r.scopes) && |r.scopes| >= |t.scopes| + 3
      && r.scopes[..|t3.scopes|] == t3.scopes
      && r.scopes[|t.scopes| + 2].name == "block" && r.scopes[|t.scopes| + 2].parent == Some(|t.scopes| + 1)
  {
    var d := DefineFunction(t, f);
    var e := EnterParams(d, f);
    var n := |t.scopes|;
    assert t4.scopes[..n] == d.scopes by {
      assert t4.scopes[..n] == t4.scopes[..|t3.scopes|][..n];
      assert t3.scopes[..n] == e.scopes[..n];
    }
    assert t4.scopes[Current(t)] == d.scopes[Current(t)];
    assert t.errors <= d.errors <= e.errors;
    assert t4.stack[..|t4.stack| - 1][..|t4.stack| - 2] == t.stack;
  }

  /** The parameter scope binds exactly the parameter names. */
  lemma EnterParamsKeys(t: Table, f: FuncDecl)
    requires Valid(t)
    ensures EnterParams(t, f).scopes[|t.scopes|].symbols.Keys == (set i | 0 <= i < |f.params| :: f.params[i].name)
  {
    var t1 := PushNew(t, "func " + f.name);
    var ps := ParamSymbols(f.params);
    DefineAllBindings(t1, ps, ParamDup);
    assert Names(ps) == (set i | 0 <= i < |f.params| :: f.params[i].name) by {
      forall x | x in (set i | 0 <= i < |f.params| :: f.params[i].name) ensures x in Names(ps) {
        var i :| 0 <= i < |f.params| && f.params[i].name == x;
        assert ps[i].name == x;
      }
    }
  }

  /** The scope "func f" encloses the parameters and nothing else. */
  lemma CollectFunctionParamScope(t: Table, f: FuncDecl)
    requires Valid(t)
    ensures var n := |t.scopes|;
      var r := CollectFunction(t, f).0;
      && r.scopes[n].name == "func " + f.name && r.scopes[n].parent == Some(Current(t))
      && r.scopes[n].symbols.Keys == (set i | 0 <= i < |f.params| :: f.params[i].name)
  {
    var n := |t.scopes|;
    var t1 := DefineFunction(t, f);
    EnterParamsKeys(t1, f);
    var e := EnterParams(t1, f);
    var b := BeforeBody(t, f);
    var r := CollectFunction(t, f).0;
    assert r.scopes[n] == r.scopes[..|b.scopes|][n] == b.scopes[n] == e.scopes[n];
  }

  /** The scope the symbol records as its locals is never defined into, and
      the body's own scope sits under it. */
  lemma CollectFunctionBodyScopes(t: Table, f: FuncDecl)
    requires Valid(t)
    ensures var n := |t.scopes|;
      var r := CollectFunction(t, f).0;
      && r.scopes[n + 1] == Scope("block of " + f.name, Some(n), map[])
      && r.scopes[n + 2].name == "block" && r.scopes[n + 2].parent == Some(n + 1)
  {
    var n := |t.scopes|;
    var e := EnterParams(DefineFunction(t, f), f);
    assert |e.scopes| == n + 1;
    var b := BeforeBody(t, f);
    assert b.scopes[n + 1] == Scope("block of " + f.name, Some(n), map[]);
    var r := CollectFunction(t, f).0;
    assert r.scopes[n + 1] == r.scopes[..|b.scopes|][n + 1];
  }

  /** The function symbol is stored when its name is new in the current
      scope; otherwise the current scope is unchanged and the table's message
      and the pass's message open the new diagnostics. */
  lemma CollectFunctionDefine(t: Table, f: FuncDecl)
    requires Valid(t)
    ensures var n := |t.scopes|;
      var c := Current(t);
      var r := CollectFunction(t, f).0;
      && (f.name !in t.scopes[c].symbols ==>
            r.scopes[c].symbols == t.scopes[c].symbols[f.name := Func(FuncSymbolOf(f, n))])
      && (f.name in t.scopes[c].symbols ==>
            && r.scopes[c] == t.scopes[c]
            && |r.errors| >= |t.errors| + 2
            && r.errors[|t.errors|..|t.errors| + 2]
               == [Redefinition(t.scopes[c].name, f.name), FuncRedefinition(f.name)])
  {
    var c := Current(t);
    var t1 := DefineFunction(t, f);
    var e := EnterParams(t1, f);
    var b := BeforeBody(t, f);
    var r := CollectFunction(t, f).0;
    assert r.scopes[c] == r.scopes[..|b.scopes|][c] == b.scopes[c] == e.scopes[c] == t1.scopes[c];
    assert t1.errors <= e.errors <= b.errors <= r.errors;
  }

  /** The top-level declarations from index `i` on, in order, from the current
      scope of `t`. */
  function CollectDecls(t: Table, p: Program, i: nat): (r: (Table, seq<TopDecl>))
    requires Valid(t) && i <= |p.decls|
    ensures Valid(r.0) && r.0.stack == t.stack && t.errors <= r.0.errors
    ensures |t.scopes| <= |r.0.scopes|
    ensures |r.1| == |p.decls| - i
    decreases |p.decls| - i
  {
    if i == |p.decls| then (t, [])
    else
      var (t1, d) := CollectTop(t, p.decls[i]);
      var (t2, ds) := CollectDecls(t1, p, i + 1);
      (t2, [d] + ds)
  }

  function CollectTop(t: Table, d: TopDecl): (r: (Table, TopDecl))
    requires Valid(t)
    ensures Valid(r.0) && r.0.stack == t.stack && t.errors <= r.0.errors
    ensures |t.scopes| <= |r.0.scopes|
  {
    match d
    case GlobalVars(vd) => (CollectVarDecl(t, vd), d)
    case Function(f) =>
      var (t', f') := CollectFunction(t, f);
      (t', Function(f'))
  }

  /** The names one top-level declaration declares: every declarator of a
      variable declaration, or the function's name. */
  function DeclNames(d: TopDecl): set<string> {
    match d
    case GlobalVars(vd) => set k | 0 <= k < |vd.decls| :: vd.decls[k].name
    case Function(f) => {f.name}
  }

  /** The names the top-level declarations from `i` on declare. */
  function TopNames(p: Program, i: nat): set<string>
    requires i <= |p.decls|
    decreases |p.decls| - i
  {
    if i == |p.decls| then {} else DeclNames(p.decls[i]) + TopNames(p, i + 1)
  }

  /** Every variable a scope map binds is a scalar. */
  predicate ScalarVars(m: map<string, Symbol>) {
    forall x :: x in m && m[x].Var? ==> !IsArray(m[x].v)
  }

  lemma {:induction false} BindAllScalar(m: map<string, Symbol>, vs: seq<VarSymbol>)
    requires ScalarVars(m)
    requires forall i :: 0 <= i < |vs| ==> !IsArray(vs[i])
    ensures ScalarVars(BindAll(m, vs))
    decreases |vs|
  {
    if |vs| > 0 {
      BindAllScalar(if vs[0].name in m then m else m[vs[0].name := Var(vs[0])], vs[1..]);
    }
  }

  /** `m'` is `m` with the names `ns` added: bindings already in `m` are
      kept, and no array is bound if `m` bound none. */
  predicate MapAdds(m: map<string, Symbol>, m': map<string, Symbol>, ns: set<string>) {
    && m'.Keys == m.Keys + ns
    && (forall x :: x in m ==> m'[x] == m[x])
    && (ScalarVars(m) ==> ScalarVars(m'))
  }

  /** A traversal step from current scope `c`: earlier scopes are kept but
      for `c`'s map, which gains the names `ns`. */
  predicate AddsNames(a: Arena, c: nat, b: Arena, ns: set<string>)
    requires c < |a|
  {
    Grows(a, c, b) && MapAdds(a[c].symbols, b[c].symbols, ns)
  }

  lemma MapAddsTrans(m1: map<string, Symbol>, m2: map<string, Symbol>, m3: map<string, Symbol>, ns: set<string>, ms: set<string>)
    requires MapAdds(m1, m2, ns) && MapAdds(m2, m3, ms)
    ensures MapAdds(m1, m3, ns + ms)
  {
  }

  lemma AddsNamesTrans(a: Arena, c: nat, b: Arena, d: Arena, ns: set<string>, ms: set<string>)
    requires c < |a| && AddsNames(a, c, b, ns) && AddsNames(b, c, d, ms)
    ensures AddsNames(a, c, d, ns + ms)
  {
    GrowsTrans(a, c, b, d);
    MapAddsTrans(a[c].symbols, b[c].symbols, d[c].symbols, ns, ms);
  }

  /** Two traversal steps in a row, named by the arena and the set they
      come to. */
  lemma AddsNamesChain(a: Arena, c: nat, b: Arena, d: Arena, e: Arena, ns: set<string>, ms: set<string>, all: set<string>)
    requires c < |a| && AddsNames(a, c, b, ns) && AddsNames(b, c, d, ms)
    requires e == d && all == ns + ms
    ensures AddsNames(a, c, e, all)
  {
    AddsNamesTrans(a, c, b, d, ns, ms);
  }

  lemma SameStackSameCurrent(t: Table, t1: Table)
    requires Valid(t) && Valid(t1) && t1.stack == t.stack
    ensures Current(t1) == Current(t)
  {
  }

  lemma CollectDeclsStep(t: Table, p: Program, i: nat)
    requires Valid(t) && i < |p.decls|
    ensures CollectDecls(t, p, i).0 == CollectDecls(CollectTop(t, p.decls[i]).0, p, i + 1).0
  {
  }

  lemma DeclSymbolNames(vd: VarDecl)
    ensures Names(DeclSymbols(vd)) == DeclNames(GlobalVars(vd))
  {
    var vs := DeclSymbols(vd);
    forall x | x in DeclNames(GlobalVars(vd)) ensures x in Names(vs) {
      var k :| 0 <= k < |vd.decls| && vd.decls[k].name == x;
      assert vs[k].name == x;
    }
  }

  lemma VarDeclBindings(t: Table, vd: VarDecl)
    requires Valid(t)
    ensures AddsNames(t.scopes, Current(t), CollectVarDecl(t, vd).scopes, DeclNames(GlobalVars(vd)))
  {
    var c := Current(t);
    var m := t.scopes[c].symbols;
    var r := CollectVarDecl(t, vd);
    var vs := DeclSymbols(vd);
    assert MapAdds(m, r.scopes[c].symbols, DeclNames(GlobalVars(vd))) by {
      DefineAllBindings(t, vs, VarDup);
      DeclSymbolNames(vd);
      if ScalarVars(m) {
        DefineAllIsBindAll(t, vs, VarDup);
        BindAllScalar(m, vs);
      }
    }
    assert r.scopes[..|t.scopes|] == r.scopes;
  }

  lemma MapAddsFunction(m: map<string, Symbol>, name: string, sym: Symbol)
    requires sym.Func?
    ensures MapAdds(m, if name in m then m else m[name := sym], {name})
  {
  }

  lemma FunctionBindings(t: Table, f: FuncDecl)
    requires Valid(t)
    ensures AddsNames(t.scopes, Current(t), CollectFunction(t, f).0.scopes, {f.name})
  {
    var c := Current(t);
    var m := t.scopes[c].symbols;
    var sym := Func(FuncSymbolOf(f, |t.scopes|));
    var r := CollectFunction(t, f).0;
    assert r.scopes[c].symbols == if f.name in m then m else m[f.name := sym] by {
      CollectFunctionDefine(t, f);
    }
    MapAddsFunction(m, f.name, sym);
  }

  lemma CollectTopBindings(t: Table, d: TopDecl)
    requires Valid(t)
    ensures AddsNames(t.scopes, Current(t), CollectTop(t, d).0.scopes, DeclNames(d))
  {
    match d
    case GlobalVars(vd) => VarDeclBindings(t, vd);
    case Function(f) => FunctionBindings(t, f);
  }

  lemma {:induction false} CollectDeclsBindings(t: Table, p: Program, i: nat)
    requires Valid(t) && i <= |p.decls|
    ensures AddsNames(t.scopes, Current(t), CollectDecls(t, p, i).0.scopes, TopNames(p, i))
    decreases |p.decls| - i, 2
  {
    if i == |p.decls| {
      var c := Current(t);
      assert t.scopes[..|t.scopes|] == t.scopes == WithSymbols(t.scopes, c, t.scopes[c].symbols);
    } else {
      CollectDeclsBindingsCons(t, p, i);
    }
  }

  /** The declarations from the `i`-th on, when there is an `i`-th. */
  lemma {:induction false} CollectDeclsBindingsCons(t: Table, p: Program, i: nat)
    requires Valid(t) && i < |p.decls|
    ensures AddsNames(t.scopes, Current(t), CollectDecls(t, p, i).0.scopes, TopNames(p, i))
    decreases |p.decls| - i, 1
  {
    var t1 := CollectTop(t, p.decls[i]).0;
    assert Valid(t1) && t1.stack == t.stack;
    assert AddsNames(t.scopes, Current(t), t1.scopes, DeclNames(p.decls[i])) by {
      CollectTopBindings(t, p.decls[i]);
    }
    assert CollectDecls(t, p, i).0 == CollectDecls(t1, p, i + 1).0 by {
      CollectDeclsStep(t, p, i);
    }
    CollectDeclsBindingsThen(t, p, i, t1, CollectDecls(t, p, i).0.scopes);
  }

  /** The rest of the declarations continue from the table `t1` the `i`-th
      one leaves and end in the arena `e`. */
  lemma {:induction false} CollectDeclsBindingsThen(t: Table, p: Program, i: nat, t1: Table, e: Arena)
    requires Valid(t) && i < |p.decls| && Valid(t1) && t1.stack == t.stack
    requires AddsNames(t.scopes, Current(t), t1.scopes, DeclNames(p.decls[i]))
    requires e == CollectDecls(t1, p, i + 1).0.scopes
    ensures AddsNames(t.scopes, Current(t), e, TopNames(p, i))
    decreases |p.decls| - i, 0
  {
    var c := Current(t);
    SameStackSameCurrent(t, t1);
    assert AddsNames(t1.scopes, c, e, TopNames(p, i + 1)) by {
      CollectDeclsBindings(t1, p, i + 1);
    }
    assert TopNames(p, i) == DeclNames(p.decls[i]) + TopNames(p, i + 1);
    AddsNamesChain(t.scopes, c, t1.scopes, e, e, DeclNames(p.decls[i]), TopNames(p, i + 1), TopNames(p, i));
  }

  /** visitProgram: the whole program, from the table the pass is given. The
      program node itself maps to the global scope, which is the current one:
      every top-level name ends up bound there, bindings already there are
      kept, no other existing scope changes, and no variable bound there is
      an array. */
  function CollectProgram(t: Table, p: Program): (r: (Table, Program))
    requires Valid(t)
    ensures Valid(r.0) && r.0.stack == t.stack && t.errors <= r.0.errors
    ensures |r.1.decls| == |p.decls|
    ensures var c := Current(t);
      && Grows(t.scopes, c, r.0.scopes)
      && r.0.scopes[c].symbols.Keys == t.scopes[c].symbols.Keys + TopNames(p, 0)
      && (forall x :: x in t.scopes[c].symbols ==> r.0.scopes[c].symbols[x] == t.scopes[c].symbols[x])
      && (ScalarVars(t.scopes[c].symbols) ==> ScalarVars(r.0.scopes[c].symbols))
  {
    CollectDeclsBindings(t, p, 0);
    var (t1, ds) := CollectDecls(t, p, 0);
    (t1, Program(ds))
  }
}
