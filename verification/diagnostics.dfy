/** The diagnostics the semantic passes append to the symbol table's error
    list. The source records them as Spanish text prefixed with `line:col`;
    here each message kind is a constructor carrying the values the text
    interpolates. */
module Diagnostics {
  import opened Types

  datatype Diag =
      // SymbolTable.define: "redefinición en scope '<scope>': <name>"
    | Redefinition(scope: string, name: string)
      // CollectSymbols
    | VarRedefinition(name: string)
    | FuncRedefinition(name: string)
    | DuplicateParam(name: string)
      // CheckUses
    | UndeclaredVar(name: string)
    | UndeclaredFunc(name: string)
    | CallArity(callee: string, args: nat, expected: nat)
      // TypeChecker: entry point, reported at "0:0"
    | MissingMain
    | MainNotInt(found: Type)
    | MainHasParams(count: nat)
      // TypeChecker: declarations and statements
    | BadFunctionDecl(name: string)
    | BadReturn(found: Type, func: string, declared: Type)
    | BadIfCond(found: Type)
    | BadWhileCond(found: Type)
    | BadInit(declared: Type, rhs: Type)
      // TypeChecker: operators
    | OrOperand
    | AndOperand
    | EqOperands
    | RelOperands
    | AddOperands(left: Type, right: Type)
    | MulOperands(left: Type, right: Type)
    | NotOperand
    | NegOperand
      // TypeChecker: names and calls
    | NotAVariable(name: string)
    | BuiltinArgs(callee: string)
    | TypeArity(callee: string, expected: nat, got: nat)
    | ArgType(position: nat, callee: string, wanted: Type, found: Type)
}
