/** The TAC optimizer (ir/TacOptimizer.java): one pass over every function
    that drops self-moves `MOV x -> x` and folds a binary instruction whose
    two operands are integer literals into a `MOV` of the constant, computed
    in Java `int` arithmetic. Everything else is copied unchanged. */
module TacOptimizer {
  import opened Common
  import Int32
  import opened Tac
  import opened TacFacts

  /** 1 for true and 0 for false, as the folded comparisons produce. */
  function Truth(b: bool): int {
    if b then 1 else 0
  }

  /** The folded value of `a op b` for the thirteen binary opcodes, in Java
      `int` arithmetic; `None` where the source's `eval` returns null, which is
      division or remainder by zero. AND and OR read nonzero as true. */
  function Eval(op: Op, a: int, b: int): (r: Option<int>)
    requires IsBinary(op) && Int32.InRange(a) && Int32.InRange(b)
    ensures r.None? <==> (op == DIV || op == MOD) && b == 0
    ensures r.Some? ==> Int32.InRange(r.value)
  {
    match op
    case ADD => Some(Int32.Wrap(a + b))
    case SUB => Some(Int32.Wrap(a - b))
    case MUL => Some(Int32.Wrap(a * b))
    case DIV => if b != 0 then Some(Int32.Div(a, b)) else None
    case MOD => if b != 0 then Some(Int32.Rem(a, b)) else None
    case LT => Some(Truth(a < b))
    case LE => Some(Truth(a <= b))
    case GT => Some(Truth(a > b))
    case GE => Some(Truth(a >= b))
    case EQ => Some(Truth(a == b))
    case NEQ => Some(Truth(a != b))
    case AND => Some(Truth(a != 0 && b != 0))
    case OR => Some(Truth(a != 0 || b != 0))
  }

  /** `MOV x -> x`, which the optimizer drops. */
  predicate SelfMove(i: Instr) {
    i.op == MOV && i.r.Some? && i.a.Some? && i.r == i.a
  }

  /** A binary instruction with a result and two literal operands: the
      optimizer parses both literals and tries to fold it. */
  predicate FoldCandidate(i: Instr) {
    i.r.Some? && IsBinary(i.op) && IsIntOperand(i.a) && IsIntOperand(i.b)
  }

  /** What one instruction becomes: nothing, a constant move, or itself.
      `Integer.parseInt` runs on `a` first, then on `b`; a literal outside the
      `int` range makes it throw, which aborts the whole optimization. */
  function OptInstr(i: Instr): Outcome<seq<Instr>> {
    if SelfMove(i) then Ok([])
    else if FoldCandidate(i) then
      var x :- Int32.ParseInt(i.a.value);
      var y :- Int32.ParseInt(i.b.value);
      var v := Eval(i.op, x, y);
      if v.Some? then Ok([Instr(MOV, Some(IntToString(v.value)), None, i.r)])
      else Ok([i])
    else Ok([i])
  }

  /** The optimized code of one function, instruction by instruction in order;
      the first exception (in code order) is the one that propagates. */
  function OptCode(c: seq<Instr>): Outcome<seq<Instr>> {
    if |c| == 0 then Ok([])
    else
      var init :- OptCode(c[..|c| - 1]);
      var last :- OptInstr(c[|c| - 1]);
      Ok(init + last)
  }

  /** A fresh function with the same name and parameters and the optimized code. */
  function OptFunction(f: Function): Outcome<Function> {
    var code :- OptCode(f.code);
    Ok(Function(f.name, f.params, code))
  }

  function OptFunctions(fs: seq<Function>): Outcome<seq<Function>> {
    if |fs| == 0 then Ok([])
    else
      var init :- OptFunctions(fs[..|fs| - 1]);
      var last :- OptFunction(fs[|fs| - 1]);
      Ok(init + [last])
  }

  /** `optimize` as written: the output is a `new TacProgram()`, so it carries
      no globals even when the input declared some. */
  function OptimizeAsWritten(p: Program): Outcome<Program> {
    var fs :- OptFunctions(p.functions);
    Ok(Program([], fs))
  }

  /** `optimize` with the input's globals carried over, as the backend needs
      them to lay out `.data`. */
  function Optimize(p: Program): Outcome<Program> {
    var fs :- OptFunctions(p.functions);
    Ok(Program(p.globals, fs))
  }
}
