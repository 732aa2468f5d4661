/** What the symbol pass leaves for the IR generator: the symbol pass binds
    every variable as a scalar, so the globals `visitProgram` registers
    after it all reserve one word, and element accesses on a global compute
    no offset. */
module Pipeline {
  import opened Common
  import opened Symbols
  import opened Scopes
  import opened Ast
  import opened Tac
  import opened GenState
  import Collect
  import TacGen
  import TacGenProps

  /** After the symbol pass, starting from a global scope with no array
      (the built-ins are functions), every global of any lowered program
      reserves exactly 4 bytes. */
  lemma CollectedGlobalsAreWords(t: Table, p: Ast.Program, q: Ast.Program)
    requires Valid(t) && Current(t) == Globals(t)
    requires Collect.ScalarVars(t.scopes[Globals(t)].symbols)
    ensures var t' := Collect.CollectProgram(t, p).0;
      forall g :: g in TacGen.LowerProgram(t', q).globals ==> g.bytes == 4
  {
    var t' := Collect.CollectProgram(t, p).0;
    TacGen.RegisteredSizes(t', TacGen.TopDeclarators(q, 0));
  }

  /** After the symbol pass, an element read `x[i]...` lowered in any scope
      from which `x` resolves to a global variable (as `isGlobal` decides)
      loads from byte offset "0". */
  lemma CollectedGlobalElemAtZero(t: Table, p: Ast.Program, sc: nat, g: Gen, x: string, idx: seq<Expr>)
    requires Valid(t) && Current(t) == Globals(t)
    requires Collect.ScalarVars(t.scopes[Globals(t)].symbols)
    requires |idx| > 0
    ensures var t' := Collect.CollectProgram(t, p).0;
      TacGen.InScope(t', sc) && TacGen.IsGlobalVar(t', sc, x) ==>
        var g1 := TacGen.LowerIndices(t', sc, g, Elem(x, idx), 0).1;
        TacGen.LowerExpr(t', sc, g, Elem(x, idx)).1.code
          == g1.code + [Instr(LOAD, Some(x), Some("0"), Some(TempName(g1.tmp)))]
  {
    var t' := Collect.CollectProgram(t, p).0;
    if TacGen.InScope(t', sc) && TacGen.IsGlobalVar(t', sc, x) {
      var gs := Globals(t');
      var m := t'.scopes[gs].symbols;
      assert Collect.ScalarVars(m);
      assert Resolve(t'.scopes, sc, x) == Some(m[x]);
      assert TacGen.ResolveVar(t', sc, x).value.dims == [];
      TacGenProps.ScalarElemLoadsAtZero(t', sc, g, x, idx);
    }
  }
}
