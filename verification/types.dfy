/** The five MiniC base types and the compatibility rules the semantic
    passes apply to them (semantics/Type.java). */
module Types {

  datatype Type = INT | VOID | CHAR | BOOL | STRING

  /** The keyword that spells a type; also how diagnostics print it. */
  function ToString(t: Type): string {
    match t
    case INT => "int"
    case VOID => "void"
    case CHAR => "char"
    case BOOL => "bool"
    case STRING => "string"
  }

  /** Type keywords as they appear in source text. */
  function Keywords(): set<string> {
    {"int", "void", "char", "bool", "string"}
  }

  /** Reads a type keyword; any unknown text defaults to `int`. */
  function FromToken(t: string): (r: Type)
    ensures t in Keywords() ==> ToString(r) == t
    ensures t !in Keywords() ==> r == INT
  {
    match t
    case "int" => INT
    case "void" => VOID
    case "char" => CHAR
    case "bool" => BOOL
    case "string" => STRING
    case _ => INT
  }

  /** Printing a type and reading it back is the identity. */
  lemma FromTokenRoundTrip(t: Type)
    ensures FromToken(ToString(t)) == t
    ensures ToString(t) in Keywords()
  {
  }

  /** Distinct types print differently. */
  lemma ToStringInjective(a: Type, b: Type)
    requires ToString(a) == ToString(b)
    ensures a == b
  {
  }

  predicate IsNumeric(t: Type) {
    t == INT || t == CHAR
  }

  /** Acceptable as a condition: nonzero means true. */
  predicate IsBooly(t: Type) {
    t == BOOL || t == INT || t == CHAR
  }

  /** Booly types are exactly the numeric ones plus `bool`; `void` and `string` are neither. */
  lemma BoolyIsNumericOrBool(t: Type)
    ensures IsBooly(t) <==> IsNumeric(t) || t == BOOL
    ensures !IsBooly(VOID) && !IsBooly(STRING)
  {
  }

  /** Equal types, or the int/char pair in either direction. */
  predicate AssignmentCompatible(lhs: Type, rhs: Type) {
    if lhs == rhs then true
    else (lhs == INT && rhs == CHAR) || (lhs == CHAR && rhs == INT)
  }

  predicate Comparable(a: Type, b: Type) {
    a == b || (IsNumeric(a) && IsNumeric(b))
  }

  /** Assignment compatibility is an equivalence-like relation that admits int/bool
      in neither direction, and it coincides with `Comparable`. */
  lemma AssignmentCompatibleLaws(a: Type, b: Type)
    ensures AssignmentCompatible(a, a)
    ensures AssignmentCompatible(a, b) <==> AssignmentCompatible(b, a)
    ensures AssignmentCompatible(a, b) && a != b ==> {a, b} == {INT, CHAR}
    ensures !AssignmentCompatible(INT, BOOL) && !AssignmentCompatible(BOOL, INT)
    ensures AssignmentCompatible(a, b) <==> Comparable(a, b)
  {
  }

  /** A `void` function may only return nothing; others follow assignment rules. */
  predicate CompatibleReturn(fun: Type, ret: Type) {
    if fun == VOID then ret == VOID else AssignmentCompatible(fun, ret)
  }

  lemma CompatibleReturnLaws(f: Type, r: Type)
    ensures CompatibleReturn(VOID, r) <==> r == VOID
    ensures f != VOID ==> (CompatibleReturn(f, r) <==> AssignmentCompatible(f, r))
    ensures CompatibleReturn(f, VOID) <==> f == VOID
  {
  }
}
