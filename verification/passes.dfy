/** How the two checking passes relate on a bare name used as a value. */
module SemanticPasses {
  import opened Common
  import opened Types
  import opened Symbols
  import opened Diagnostics
  import opened Scopes
  import opened Ast
  import CheckUses
  import TypeChecker

  /** Every name the use check reports undeclared, the type checker rejects
      as well; a name bound to a function is rejected by the type checker
      only, because the use check accepts any symbol. */
  lemma NameReportedByBoth(t: Table, sc: nat, x: string)
    requires Valid(t) && sc < |t.scopes|
    ensures CheckUses.ExprCheck(t, sc, Name(x)) != [] ==> TypeChecker.TypeAt(t, sc, Name(x), -1).Ok? && TypeChecker.TypeAt(t, sc, Name(x), -1).value.diags != []
    ensures Resolve(t.scopes, sc, x).Some? && Resolve(t.scopes, sc, x).value.Func? ==>
      CheckUses.ExprCheck(t, sc, Name(x)) == [] && TypeChecker.TypeAt(t, sc, Name(x), -1) == Ok(TypeChecker.Typed(INT, [NotAVariable(x)]))
  {
    var e := Name(x);
    var n := TypeChecker.NameTyped(t, sc, x);
    assert TypeChecker.TypeAt(t, sc, e, 4) == TypeChecker.TypeAt(t, sc, e, 6) == Ok(n);
    assert TypeChecker.TypeAt(t, sc, e, 2) == Ok(TypeChecker.Typed(INT, n.diags));
    assert TypeChecker.TypeAt(t, sc, e, 1) == Ok(TypeChecker.Typed(INT, n.diags + []));
    assert TypeChecker.TypeAt(t, sc, e, 0) == Ok(TypeChecker.Typed(INT, n.diags + [] + []));
    assert n.diags + [] + [] == n.diags;
    assert TypeChecker.TypeAt(t, sc, e, -1) == TypeChecker.TypeAt(t, sc, e, 0);
  }
}
