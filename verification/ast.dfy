/** An abstract syntax for the parse trees the external front end hands to
    the semantic passes and the IR generator.

    Each binary precedence level of the grammar (logicalOr, logicalAnd,
    equality, relational, additive, multiplicative) is a `Chain`: a first
    operand followed by (operator, operand) links, evaluated left to right.
    Single-operand levels are not written out; `NaturalLevel` says where a node
    sits in the ladder, and the type checker re-inserts the elided levels.
    Blocks carry the scope the symbol-collection pass assigned to them. */
module Ast {
  import opened Common

  datatype Level = OrLevel | AndLevel | EqLevel | RelLevel | AddLevel | MulLevel

  datatype BinOp = Or | And | Eq | Ne | Lt | Le | Gt | Ge | Add | Sub | Mul | Div | Mod

  /** The grammar level an operator token belongs to. */
  function LevelOf(op: BinOp): Level {
    match op
    case Or => OrLevel
    case And => AndLevel
    case Eq | Ne => EqLevel
    case Lt | Le | Gt | Ge => RelLevel
    case Add | Sub => AddLevel
    case Mul | Div | Mod => MulLevel
  }

  /** Depth in the precedence ladder: 0 is logicalOr, 5 multiplicative. */
  function Depth(l: Level): nat {
    match l
    case OrLevel => 0
    case AndLevel => 1
    case EqLevel => 2
    case RelLevel => 3
    case AddLevel => 4
    case MulLevel => 5
  }

  /** An assignment target: a name, with array indices when non-empty. */
  datatype LValue = LValue(id: string, indices: seq<Expr>)

  datatype Expr =
    | IntLit(text: string)                       // INT_LIT, e.g. "42"
    | CharLit(text: string)                      // CHAR_LIT with quotes, e.g. "'a'"
    | StrLit(text: string)                       // STR_LIT with quotes
    | BoolLit(value: bool)                       // true / false
    | Name(id: string)                           // primary: ID
    | Elem(id: string, indices: seq<Expr>)       // primary: lvalue with indices
    | Call(callee: string, args: seq<Expr>)      // primary: ID '(' argList? ')'
    | Paren(inner: Expr)                         // primary: '(' expr ')'
    | Not(operand: Expr)                         // unary: '!' unary
    | Neg(operand: Expr)                         // unary: '-' unary
    | Chain(level: Level, first: Expr, rest: seq<Link>)
    | Assign(target: LValue, rhs: Expr)          // assignment: lvalue '=' assignment

  datatype Link = Link(op: BinOp, operand: Expr)

  /** 6 for unary and primary nodes, the chain's depth for a chain, and -1 for
      an assignment (above logicalOr). */
  function NaturalDepth(e: Expr): int {
    match e
    case Chain(l, _, _) => Depth(l)
    case Assign(_, _) => -1
    case _ => 6
  }

  datatype Declarator = Declarator(name: string, dims: seq<int>, init: Option<Expr>)

  /** `type initDeclarator (',' initDeclarator)* ';'`; `ty` is the keyword text. */
  datatype VarDecl = VarDecl(ty: string, decls: seq<Declarator>)

  datatype Stmt =
    | Decl(d: VarDecl)
    | ExprStmt(e: Option<Expr>)
    | Return(value: Option<Expr>)
    | If(cond: Expr, thenS: Stmt, elseS: Option<Stmt>)
    | While(cond: Expr, body: Stmt)
    | For(init: Option<Expr>, test: Option<Expr>, step: Option<Expr>, body: Stmt)
    | Nested(b: Block)

  /** `scope` is the arena index of the block's scope once symbols are
      collected; a negative value means "no scope recorded". */
  datatype Block = Block(stmts: seq<Stmt>, scope: int)

  datatype Param = Param(ty: string, name: string)

  datatype FuncDecl = FuncDecl(ty: string, name: string, params: seq<Param>, body: Block)

  datatype TopDecl = GlobalVars(d: VarDecl) | Function(f: FuncDecl)

  datatype Program = Program(decls: seq<TopDecl>)
}
