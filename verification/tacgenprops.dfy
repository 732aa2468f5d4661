/** What the IR generator's expression code looks like (ir/TacGen.java):
    it is straight-line, computes the temporaries it takes exactly once each
    and in the order taken, and leaves the PARAM queue as it found it; a
    call's CALL takes exactly the operands its own arguments pushed.
    Statements, functions and programs are the subject of TacStmtProps. */
module TacGenProps {
  import opened Common
  import opened Types
  import opened Symbols
  import opened Scopes
  import opened Ast
  import opened Tac
  import opened GenState
  import opened TacFacts
  import opened TacGen
  import opened CodeShape

  // ---------------------------------------------------------------------
  // Expressions, case by case
  // ---------------------------------------------------------------------

  /** Expression `x`, lowered from state `g`, yields expression code. */
  ghost predicate LowersFrom(t: Table, sc: nat, x: Expr, g: Gen)
    requires InScope(t, sc)
  {
    ExprCode(g, LowerExpr(t, sc, g, x).1, [])
  }

  /** Expression `x` lowers to expression code from every state. */
  ghost predicate Lowers(t: Table, sc: nat, x: Expr)
    requires InScope(t, sc)
  {
    forall g :: LowersFrom(t, sc, x, g)
  }

  /** Every expression lowers to expression code that pushes nothing net. */
  lemma {:induction false} ExprFacts(t: Table, sc: nat, g: Gen, e: Expr)
    requires InScope(t, sc)
    ensures ExprCode(g, LowerExpr(t, sc, g, e).1, [])
    decreases e, 2
  {
    match e
    case IntLit(_) => ExprCodeNone(g);
    case CharLit(_) => ExprCodeNone(g);
    case StrLit(_) => ExprCodeNone(g);
    case BoolLit(_) => ExprCodeNone(g);
    case Name(x) => NameFacts(t, sc, g, x);
    case Paren(x) => ExprFacts(t, sc, g, x);
    case _ => CompoundFacts(t, sc, g, e);
  }

  /** The expressions built from lowered subexpressions. */
  lemma CompoundFacts(t: Table, sc: nat, g: Gen, e: Expr)
    requires InScope(t, sc)
    requires e.Elem? || e.Call? || e.Not? || e.Neg? || e.Chain? || e.Assign?
    ensures ExprCode(g, LowerExpr(t, sc, g, e).1, [])
    decreases e, 1
  {
    SubLowers(t, sc, e);
    match e
    case Elem(x, idx) =>
      if |idx| == 0 {
        NameFacts(t, sc, g, x);
      } else {
        assert LowerExpr(t, sc, g, e) == LowerElem(t, sc, g, e);
        ElemFacts(t, sc, g, e);
      }
    case Call(_, _) =>
      assert LowerExpr(t, sc, g, e) == LowerCall(t, sc, g, e);
      CallFacts(t, sc, g, e);
    case Not(x) =>
      assert LowerExpr(t, sc, g, e) == LowerUnary(t, sc, g, e);
      UnaryFacts(t, sc, g, e);
    case Neg(x) =>
      assert LowerExpr(t, sc, g, e) == LowerUnary(t, sc, g, e);
      UnaryFacts(t, sc, g, e);
    case Chain(_, _, _) =>
      assert LowerExpr(t, sc, g, e) == LowerChain(t, sc, g, e);
      ChainFacts(t, sc, g, e);
    case Assign(_, _) =>
      assert LowerExpr(t, sc, g, e) == LowerAssign(t, sc, g, e);
      AssignFacts(t, sc, g, e);
  }

  /** The subexpressions whose lowering `e`'s lowering is built from. */
  ghost predicate SubsLower(t: Table, sc: nat, e: Expr)
    requires InScope(t, sc)
  {
    && ((e.Not? || e.Neg?) ==> Lowers(t, sc, e.operand))
    && (e.Chain? ==> Lowers(t, sc, e.first) && forall k :: 0 <= k < |e.rest| ==> Lowers(t, sc, e.rest[k].operand))
    && (e.Call? ==> forall k :: 0 <= k < |e.args| ==> Lowers(t, sc, e.args[k]))
    && ((e.Elem? || e.Assign?) ==> forall k :: 0 <= k < |IndexList(e)| ==> Lowers(t, sc, IndexList(e)[k]))
    && (e.Assign? ==> Lowers(t, sc, e.rhs))
  }

  lemma {:induction false} SubLowers(t: Table, sc: nat, e: Expr)
    requires InScope(t, sc)
    ensures SubsLower(t, sc, e)
    decreases e, 0
  {
    match e
    case Not(x) =>
      forall g ensures LowersFrom(t, sc, x, g) {
        ExprFacts(t, sc, g, x);
      }
    case Neg(x) =>
      forall g ensures LowersFrom(t, sc, x, g) {
        ExprFacts(t, sc, g, x);
      }
    case Chain(_, first, rest) =>
      forall g ensures LowersFrom(t, sc, first, g) {
        ExprFacts(t, sc, g, first);
      }
      forall k, g | 0 <= k < |rest|
        ensures LowersFrom(t, sc, rest[k].operand, g)
      {
        assert rest[k] in rest;
        ExprFacts(t, sc, g, rest[k].operand);
      }
    case Call(_, args) =>
      forall k, g | 0 <= k < |args|
        ensures LowersFrom(t, sc, args[k], g)
      {
        assert args[k] in args;
        ExprFacts(t, sc, g, args[k]);
      }
    case Elem(_, idx) =>
      forall k, g | 0 <= k < |idx|
        ensures LowersFrom(t, sc, idx[k], g)
      {
        assert idx[k] in idx;
        ExprFacts(t, sc, g, idx[k]);
      }
    case Assign(lv, rhs) =>
      forall g ensures LowersFrom(t, sc, rhs, g) {
        ExprFacts(t, sc, g, rhs);
      }
      forall k, g | 0 <= k < |lv.indices|
        ensures LowersFrom(t, sc, lv.indices[k], g)
      {
        assert lv.indices[k] in lv.indices;
        ExprFacts(t, sc, g, lv.indices[k]);
      }
    case _ =>
  }

  lemma NameFacts(t: Table, sc: nat, g: Gen, x: string)
    requires InScope(t, sc)
    ensures ExprCode(g, ReadName(t, sc, g, x).1, [])
  {
    if IsGlobalVar(t, sc, x) {
      ComputeStep(g, LOAD, Some(x), Some("0"));
    } else {
      ExprCodeNone(g);
    }
  }

  lemma UnaryFacts(t: Table, sc: nat, g: Gen, e: Expr)
    requires InScope(t, sc) && (e.Not? || e.Neg?) && SubsLower(t, sc, e)
    ensures ExprCode(g, LowerUnary(t, sc, g, e).1, [])
  {
    var (v, g1) := LowerExpr(t, sc, g, e.operand);
    assert LowersFrom(t, sc, e.operand, g);
    if e.Not? {
      ComputeStep(g1, NOT, Some(v), None);
    } else {
      ComputeStep(g1, SUB, Some("0"), Some(v));
    }
    ExprCodeJoin(g, g1, LowerUnary(t, sc, g, e).1, [], []);
  }

  lemma ChainFacts(t: Table, sc: nat, g: Gen, e: Expr)
    requires InScope(t, sc) && e.Chain? && SubsLower(t, sc, e)
    ensures ExprCode(g, LowerChain(t, sc, g, e).1, [])
  {
    var (v, g1) := LowerExpr(t, sc, g, e.first);
    assert LowersFrom(t, sc, e.first, g);
    LinksFacts(t, sc, g1, e, 0, v);
    ExprCodeJoin(g, g1, LowerLinks(t, sc, g1, e, 0, v).1, [], []);
  }

  /** The links from `i` on lower to straight code that pushes nothing. */
  ghost predicate LinksLower(t: Table, sc: nat, g: Gen, e: Expr, i: nat, v: string)
    requires InScope(t, sc) && e.Chain? && i <= |e.rest|
  {
    ExprCode(g, LowerLinks(t, sc, g, e, i, v).1, [])
  }

  lemma {:induction false} LinksFacts(t: Table, sc: nat, g: Gen, e: Expr, i: nat, v: string)
    requires InScope(t, sc) && e.Chain? && i <= |e.rest| && SubsLower(t, sc, e)
    ensures LinksLower(t, sc, g, e, i, v)
    decreases |e.rest| - i
  {
    if i == |e.rest| {
      LinksEnd(t, sc, g, e, v);
    } else {
      var r := LowerLink(t, sc, g, e, i, v);
      LinksFacts(t, sc, r.1, e, i + 1, r.0);
      LinksStep(t, sc, g, e, i, v);
    }
  }

  lemma LinksEnd(t: Table, sc: nat, g: Gen, e: Expr, v: string)
    requires InScope(t, sc) && e.Chain?
    ensures LinksLower(t, sc, g, e, |e.rest|, v)
  {
    ExprCodeNone(g);
  }

  /** One step of LinksFacts: link `i` ahead of the rest. */
  lemma LinksStep(t: Table, sc: nat, g: Gen, e: Expr, i: nat, v: string)
    requires InScope(t, sc) && e.Chain? && i < |e.rest| && SubsLower(t, sc, e)
    requires LinksLower(t, sc, LowerLink(t, sc, g, e, i, v).1, e, i + 1, LowerLink(t, sc, g, e, i, v).0)
    ensures LinksLower(t, sc, g, e, i, v)
  {
    var (tmp, g2) := LowerLink(t, sc, g, e, i, v);
    assert LowerLinks(t, sc, g, e, i, v) == LowerLinks(t, sc, g2, e, i + 1, tmp);
    LinkFacts(t, sc, g, e, i, v);
    ExprCodeJoin(g, g2, LowerLinks(t, sc, g2, e, i + 1, tmp).1, [], []);
  }

  /** Link `i` alone: its operand, then the combining instruction. */
  lemma LinkFacts(t: Table, sc: nat, g: Gen, e: Expr, i: nat, v: string)
    requires InScope(t, sc) && e.Chain? && i < |e.rest| && SubsLower(t, sc, e)
    ensures ExprCode(g, LowerLink(t, sc, g, e, i, v).1, [])
  {
    var (w, g1) := LowerExpr(t, sc, g, e.rest[i].operand);
    assert LowersFrom(t, sc, e.rest[i].operand, g);
    ComputeStep(g1, ChainOp(e.level, e.rest[i].op), Some(v), Some(w));
    ExprCodeJoin(g, g1, LowerLink(t, sc, g, e, i, v).1, [], []);
  }

  lemma {:induction false} IndicesFacts(t: Table, sc: nat, g: Gen, e: Expr, i: nat)
    requires InScope(t, sc) && (e.Elem? || e.Assign?) && i <= |IndexList(e)| && SubsLower(t, sc, e)
    ensures ExprCode(g, LowerIndices(t, sc, g, e, i).1, [])
    decreases |IndexList(e)| - i
  {
    if i == |IndexList(e)| {
      ExprCodeNone(g);
    } else {
      var g1 := LowerExpr(t, sc, g, IndexList(e)[i]).1;
      IndicesFacts(t, sc, g1, e, i + 1);
      IndicesStep(t, sc, g, e, i);
    }
  }

  /** One step of IndicesFacts: index `i` lowered ahead of the rest. */
  lemma IndicesStep(t: Table, sc: nat, g: Gen, e: Expr, i: nat)
    requires InScope(t, sc) && (e.Elem? || e.Assign?) && i < |IndexList(e)| && SubsLower(t, sc, e)
    requires var g1 := LowerExpr(t, sc, g, IndexList(e)[i]).1;
      ExprCode(g1, LowerIndices(t, sc, g1, e, i + 1).1, [])
    ensures ExprCode(g, LowerIndices(t, sc, g, e, i).1, [])
  {
    var g1 := LowerExpr(t, sc, g, IndexList(e)[i]).1;
    var g2 := LowerIndices(t, sc, g1, e, i + 1).1;
    assert LowerIndices(t, sc, g, e, i).1 == g2;
    assert LowersFrom(t, sc, IndexList(e)[i], g);
    ExprCodeJoin(g, g1, g2, [], []);
  }

  /** Every argument of call `e` lowers to expression code. */
  ghost predicate ArgsLower(t: Table, sc: nat, e: Expr)
    requires InScope(t, sc) && e.Call?
  {
    forall k :: 0 <= k < |e.args| ==> Lowers(t, sc, e.args[k])
  }

  lemma ArgFacts(t: Table, sc: nat, g: Gen, e: Expr, i: nat)
    requires InScope(t, sc) && e.Call? && i < |e.args| && ArgsLower(t, sc, e)
    ensures var r := LowerArg(t, sc, g, e, i);
      ExprCode(g, r.1, [Some(r.0)])
  {
    var (v, g1) := LowerExpr(t, sc, g, e.args[i]);
    assert LowersFrom(t, sc, e.args[i], g);
    ParamStep(g1, v);
    ExprCodeJoin(g, g1, LowerArg(t, sc, g, e, i).1, [], [Some(v)]);
  }

  /** The arguments from `i` on push exactly their values, in order. */
  lemma {:induction false} ArgsFacts(t: Table, sc: nat, g: Gen, e: Expr, i: nat)
    requires InScope(t, sc) && e.Call? && i <= |e.args| && ArgsLower(t, sc, e)
    ensures var r := LowerArgs(t, sc, g, e, i);
      ExprCode(g, r.1, r.0)
    decreases |e.args| - i
  {
    if i == |e.args| {
      assert LowerArgs(t, sc, g, e, i) == ([], g);
      ExprCodeNone(g);
    } else {
      var g1 := LowerArg(t, sc, g, e, i).1;
      ArgsFacts(t, sc, g1, e, i + 1);
      ArgsStep(t, sc, g, e, i);
    }
  }

  /** One step of ArgsFacts: argument `i` pushed ahead of the rest. */
  lemma ArgsStep(t: Table, sc: nat, g: Gen, e: Expr, i: nat)
    requires InScope(t, sc) && e.Call? && i < |e.args| && ArgsLower(t, sc, e)
    requires var g1 := LowerArg(t, sc, g, e, i).1;
      var r := LowerArgs(t, sc, g1, e, i + 1);
      ExprCode(g1, r.1, r.0)
    ensures var r := LowerArgs(t, sc, g, e, i);
      ExprCode(g, r.1, r.0)
  {
    var (v, g1) := LowerArg(t, sc, g, e, i);
    var (vs, g2) := LowerArgs(t, sc, g1, e, i + 1);
    assert LowerArgs(t, sc, g, e, i) == ([Some(v)] + vs, g2);
    ArgFacts(t, sc, g, e, i);
    ExprCodeJoin(g, g1, g2, [Some(v)], vs);
  }

  lemma CallFacts(t: Table, sc: nat, g: Gen, e: Expr)
    requires InScope(t, sc) && e.Call? && SubsLower(t, sc, e)
    ensures ExprCode(g, LowerCall(t, sc, g, e).1, [])
  {
    var (vs, g1) := LowerArgs(t, sc, g, e, 0);
    ArgsFacts(t, sc, g, e, 0);
    var r: Operand := if ReturnsValue(t, sc, e.callee) then Some(TempName(g1.tmp)) else None;
    var d: nat := if r.Some? then 1 else 0;
    var h := Put(g1.(tmp := g1.tmp + d), Instr(CALL, Some(e.callee), Some(IntToString(|vs|)), r));
    assert LowerCall(t, sc, g, e).1 == h;
    CallStep(g, g1, vs, e.callee, r, d);
  }

  lemma ElemFacts(t: Table, sc: nat, g: Gen, e: Expr)
    requires InScope(t, sc) && e.Elem? && |e.indices| > 0 && SubsLower(t, sc, e)
    ensures ExprCode(g, LowerElem(t, sc, g, e).1, [])
  {
    var (vals, g1) := LowerIndices(t, sc, g, e, 0);
    var (off, g2) := OffsetBytes(g1, DimsFor(t, sc, e.id, |vals|), vals);
    IndicesFacts(t, sc, g, e, 0);
    OffsetBytesCode(g1, DimsFor(t, sc, e.id, |vals|), vals);
    ExprCodeJoin(g, g1, g2, [], []);
    ComputeStep(g2, LOAD, Some(e.id), Some(off));
    ExprCodeJoin(g, g2, LowerElem(t, sc, g, e).1, [], []);
  }

  lemma AssignFacts(t: Table, sc: nat, g: Gen, e: Expr)
    requires InScope(t, sc) && e.Assign? && SubsLower(t, sc, e)
    ensures ExprCode(g, LowerAssign(t, sc, g, e).1, [])
  {
    var lv := e.target;
    var (v, g1) := LowerExpr(t, sc, g, e.rhs);
    assert LowersFrom(t, sc, e.rhs, g);
    if |lv.indices| == 0 {
      if IsGlobalVar(t, sc, lv.id) {
        QuietStep(g1, Instr(STORE, Some(v), Some(lv.id), Some("0")));
      } else {
        QuietStep(g1, Instr(MOV, Some(v), None, Some(lv.id)));
      }
      ExprCodeJoin(g, g1, LowerAssign(t, sc, g, e).1, [], []);
    } else {
      var (vals, g2) := LowerIndices(t, sc, g1, e, 0);
      var (off, g3) := OffsetBytes(g2, DimsFor(t, sc, lv.id, |vals|), vals);
      IndicesFacts(t, sc, g1, e, 0);
      ExprCodeJoin(g, g1, g2, [], []);
      OffsetBytesCode(g2, DimsFor(t, sc, lv.id, |vals|), vals);
      ExprCodeJoin(g, g2, g3, [], []);
      QuietStep(g3, Instr(STORE, Some(v), Some(lv.id), Some(off)));
      ExprCodeJoin(g, g3, LowerAssign(t, sc, g, e).1, [], []);
    }
  }

  // ---------------------------------------------------------------------
  // Element access on a name declared without dimensions
  // ---------------------------------------------------------------------

  /** The symbol pass defines every declarator without dimensions, so an
      element read `x[i]...` of a declared `x` computes no offset: it loads
      `x` at byte offset "0" into a fresh temporary, after the indices. */
  lemma ScalarElemLoadsAtZero(t: Table, sc: nat, g: Gen, x: string, idx: seq<Expr>)
    requires InScope(t, sc) && |idx| > 0
    requires ResolveVar(t, sc, x).Some? && ResolveVar(t, sc, x).value.dims == []
    ensures var g1 := LowerIndices(t, sc, g, Elem(x, idx), 0).1;
      LowerExpr(t, sc, g, Elem(x, idx))
        == (TempName(g1.tmp), g1.(tmp := g1.tmp + 1, code := g1.code + [Instr(LOAD, Some(x), Some("0"), Some(TempName(g1.tmp)))]))
  {
    var e := Elem(x, idx);
    var (vals, g1) := LowerIndices(t, sc, g, e, 0);
    assert DimsFor(t, sc, x, |vals|) == [];
    assert OffsetBytes(g1, [], vals) == ("0", g1);
  }

  /** Likewise an element store `x[i]... = v` of a declared `x` stores at
      byte offset "0". */
  lemma ScalarElemStoresAtZero(t: Table, sc: nat, g: Gen, x: string, idx: seq<Expr>, rhs: Expr)
    requires InScope(t, sc) && |idx| > 0
    requires ResolveVar(t, sc, x).Some? && ResolveVar(t, sc, x).value.dims == []
    ensures var e := Assign(LValue(x, idx), rhs);
      var (v, g1) := LowerExpr(t, sc, g, rhs);
      var g2 := LowerIndices(t, sc, g1, e, 0).1;
      LowerExpr(t, sc, g, e) == (v, g2.(code := g2.code + [Instr(STORE, Some(v), Some(x), Some("0"))]))
  {
    var e := Assign(LValue(x, idx), rhs);
    var (v, g1) := LowerExpr(t, sc, g, rhs);
    var (vals, g2) := LowerIndices(t, sc, g1, e, 0);
    assert DimsFor(t, sc, x, |vals|) == [];
    assert OffsetBytes(g2, [], vals) == ("0", g2);
  }
}
