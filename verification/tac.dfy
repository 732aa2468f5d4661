/** Three-address code (ir/TacInstr.java, TacFunction.java, TacProgram.java,
    TacGlobal.java, TacOp.java): immutable instructions over text operands,
    functions that collect them in order, and the textual dump.

    An operand is optional text; `None` is Java's `null`, which the dump
    renders as `null` (except in `ret`, which renders it as nothing). */
module Tac {
  import opened Common

  datatype Op =
    | MOV | RET
    | ADD | SUB | MUL | DIV | MOD
    | LT | LE | GT | GE | EQ | NEQ
    | AND | OR | NOT
    | PARAM | CALL
    | LOAD | STORE
    | IFZ | GOTO | LABEL

  type Operand = Option<string>

  /** One instruction: opcode, two arguments and a result. */
  datatype Instr = Instr(op: Op, a: Operand, b: Operand, r: Operand)

  /** A `.data` reservation of `bytes` bytes. */
  datatype Global = Global(name: string, bytes: int)

  datatype Function = Function(name: string, params: seq<string>, code: seq<Instr>)

  datatype Program = Program(globals: seq<Global>, functions: seq<Function>)

  /** The operators printed as `r = <mnemonic> a, b`. */
  predicate IsBinary(op: Op) {
    op in {ADD, SUB, MUL, DIV, MOD, LT, LE, GT, GE, EQ, NEQ, AND, OR}
  }

  /** The lower-case mnemonic of an opcode. */
  function Mnemonic(op: Op): (m: string)
    ensures |m| >= 2
  {
    match op
    case MOV => "mov"      case RET => "ret"
    case ADD => "add"      case SUB => "sub"      case MUL => "mul"
    case DIV => "div"      case MOD => "mod"
    case LT => "lt"        case LE => "le"        case GT => "gt"
    case GE => "ge"        case EQ => "eq"        case NEQ => "neq"
    case AND => "and"      case OR => "or"        case NOT => "not"
    case PARAM => "param"  case CALL => "call"
    case LOAD => "load"    case STORE => "store"
    case IFZ => "ifz"      case GOTO => "goto"    case LABEL => "label"
  }

  /** Distinct opcodes have distinct mnemonics, so a printed binary
      instruction names its operator unambiguously. */
  lemma MnemonicInjective(x: Op, y: Op)
    requires Mnemonic(x) == Mnemonic(y)
    ensures x == y
  {
  }

  /** An operand whose text matches `-?\d+`: both the optimizer and the
      backend read such an operand as an integer constant. */
  predicate IsIntOperand(o: Operand) {
    o.Some? && IsIntLit(o.value)
  }

  /** `String.format("%s", o)`: a null operand prints as `null`. */
  function Text(o: Operand): string {
    if o.Some? then o.value else "null"
  }

  /** TacInstr.toString, one format per opcode. */
  function InstrText(i: Instr): (s: string)
    ensures IsBinary(i.op) ==> s == Text(i.r) + " = " + Mnemonic(i.op) + " " + Text(i.a) + ", " + Text(i.b)
  {
    match i.op
    case MOV => Text(i.r) + " = " + Text(i.a)
    case RET => "ret " + (if i.a.None? then "" else i.a.value)
    case NOT => Text(i.r) + " = not " + Text(i.a)
    case PARAM => "param " + Text(i.a)
    case CALL => Text(i.r) + " = call " + Text(i.a) + ", " + Text(i.b)
    case LOAD => Text(i.r) + " = load " + Text(i.a) + ", " + Text(i.b)
    case STORE => "store " + Text(i.a) + ", " + Text(i.b) + ", " + Text(i.r)
    case IFZ => "ifz " + Text(i.a) + " goto " + Text(i.b)
    case GOTO => "goto " + Text(i.a)
    case LABEL => Text(i.a) + ":"
    case _ => Text(i.r) + " = " + Mnemonic(i.op) + " " + Text(i.a) + ", " + Text(i.b)
  }

  /** The label a jump names and the label a LABEL defines print alike: a
      `goto l` line ends with the text of the line `l:` without its colon. */
  lemma JumpNamesLabel(l: string, c: Operand)
    ensures InstrText(Instr(GOTO, Some(l), None, None)) == "goto " + InstrText(Instr(LABEL, Some(l), None, None))[..|l|]
    ensures InstrText(Instr(IFZ, c, Some(l), None)) == "ifz " + Text(c) + " goto " + InstrText(Instr(LABEL, Some(l), None, None))[..|l|]
  {
    assert InstrText(Instr(LABEL, Some(l), None, None))[..|l|] == l;
  }

  function GlobalText(g: Global): string {
    ".globl " + g.name + " : " + IntToString(g.bytes) + " bytes"
  }

  /** A fresh function: the given name, no parameters, no code. */
  function NewFunction(name: string): (f: Function)
    ensures f.name == name && f.params == [] && f.code == []
  {
    Function(name, [], [])
  }

  /** TacFunction.emit: appends one instruction; nothing else changes. */
  function Emit(f: Function, i: Instr): (r: Function)
    ensures r.name == f.name && r.params == f.params
    ensures |r.code| == |f.code| + 1 && r.code[|f.code|] == i
    ensures r.code[..|f.code|] == f.code
  {
    Function(f.name, f.params, f.code + [i])
  }

  /** TacProgram.newFunction: appends a fresh function and returns it. */
  function AddFunction(p: Program, name: string): (r: (Program, Function))
    ensures r.1 == NewFunction(name)
    ensures r.0.globals == p.globals && r.0.functions == p.functions + [r.1]
  {
    var f := NewFunction(name);
    (Program(p.globals, p.functions + [f]), f)
  }

  /** The code lines of a function dump, two-space indented. */
  function CodeText(code: seq<Instr>): string {
    if |code| == 0 then "" else CodeText(code[..|code| - 1]) + "  " + InstrText(code[|code| - 1]) + "\n"
  }

  /** TacFunction.toString: a header, one line per instruction, a blank line. */
  function FunctionText(f: Function): (s: string)
    ensures |s| >= 2 && s[|s| - 1] == '\n'
  {
    "func " + f.name + ":\n" + CodeText(f.code) + "\n"
  }

  function GlobalsLines(gs: seq<Global>): string {
    if |gs| == 0 then "" else GlobalsLines(gs[..|gs| - 1]) + GlobalText(gs[|gs| - 1]) + "\n"
  }

  function FunctionsText(fs: seq<Function>): string {
    if |fs| == 0 then "" else FunctionsText(fs[..|fs| - 1]) + FunctionText(fs[|fs| - 1]) + "\n"
  }

  /** TacProgram.toString: the globals section only when there are globals,
      then every function followed by an extra newline. */
  function ProgramText(p: Program): string {
    GlobalsText(p.globals) + FunctionsText(p.functions)
  }

  /** The globals section: a header, one line per global, a blank line. */
  function GlobalsText(gs: seq<Global>): string {
    if |gs| == 0 then "" else "# globals\n" + GlobalsLines(gs) + "\n"
  }

  // ---------------------------------------------------------------------
  // Laws of the dump
  // ---------------------------------------------------------------------

  /** Emitting one instruction inserts exactly its line before the closing
      blank line of the function dump. */
  lemma EmitText(f: Function, i: Instr)
    ensures FunctionText(Emit(f, i))
      == "func " + f.name + ":\n" + CodeText(f.code) + "  " + InstrText(i) + "\n" + "\n"
  {
    var c := f.code + [i];
    assert c[..|c| - 1] == f.code && c[|c| - 1] == i;
    var line := "  " + InstrText(i) + "\n";
    assert CodeText(c) == CodeText(f.code) + line;
    var head := "func " + f.name + ":\n";
    assert FunctionText(Emit(f, i)) == head + (CodeText(f.code) + line) + "\n";
  }

  /** Adding a function appends exactly its dump to the program dump. */
  lemma AddFunctionText(p: Program, name: string)
    ensures ProgramText(AddFunction(p, name).0) == ProgramText(p) + FunctionText(NewFunction(name)) + "\n"
  {
    var f := NewFunction(name);
    var fs := p.functions + [f];
    assert fs[..|fs| - 1] == p.functions && fs[|fs| - 1] == f;
  }

  /** Without globals the dump is just the functions; with globals it starts
      with the `# globals` header. */
  lemma GlobalsSection(p: Program)
    ensures |p.globals| == 0 ==> ProgramText(p) == FunctionsText(p.functions)
    ensures |p.globals| > 0 ==> ProgramText(p)[..10] == "# globals\n"
  {
  }

  // ---------------------------------------------------------------------
  // The dump as a list of lines
  // ---------------------------------------------------------------------

  predicate NoNewline(s: string) {
    '\n' !in s
  }

  /** Lines joined, each terminated by a newline. */
  function Unlines(ls: seq<string>): string {
    if |ls| == 0 then "" else Unlines(ls[..|ls| - 1]) + ls[|ls| - 1] + "\n"
  }

  lemma {:induction false} UnlinesAppend(xs: seq<string>, ys: seq<string>)
    ensures Unlines(xs + ys) == Unlines(xs) + Unlines(ys)
    decreases |ys|
  {
    if |ys| == 0 {
      assert xs + ys == xs;
    } else {
      var init := ys[..|ys| - 1];
      assert (xs + ys)[..|xs + ys| - 1] == xs + init;
      UnlinesAppend(xs, init);
    }
  }

  predicate OperandOk(o: Operand) {
    o.Some? ==> NoNewline(o.value)
  }

  /** An instruction whose operands hold no newline. */
  predicate OneLine(i: Instr) {
    OperandOk(i.a) && OperandOk(i.b) && OperandOk(i.r)
  }

  /** Such an instruction prints as a single line. */
  lemma InstrTextOneLine(i: Instr)
    requires OneLine(i)
    ensures NoNewline(InstrText(i))
  {
  }

  /** The indented line of every instruction, in code order. */
  function CodeLines(code: seq<Instr>): (ls: seq<string>)
    ensures |ls| == |code|
  {
    if |code| == 0 then [] else CodeLines(code[..|code| - 1]) + ["  " + InstrText(code[|code| - 1])]
  }

  lemma {:induction false} CodeTextLines(code: seq<Instr>)
    ensures CodeText(code) == Unlines(CodeLines(code))
  {
    if |code| > 0 {
      var init := code[..|code| - 1];
      CodeTextLines(init);
      assert CodeLines(code)[..|code| - 1] == CodeLines(init);
    }
  }

  lemma {:induction false} CodeLinesAt(code: seq<Instr>)
    ensures forall k :: 0 <= k < |code| ==> CodeLines(code)[k] == "  " + InstrText(code[k])
  {
    if |code| > 0 {
      CodeLinesAt(code[..|code| - 1]);
    }
  }

  /** A function dump is exactly these lines: the header, one two-space
      indented line per instruction in code order, and an empty line. */
  lemma FunctionLines(f: Function)
    ensures FunctionText(f) == Unlines(["func " + f.name + ":"] + CodeLines(f.code) + [""])
  {
    var head := ["func " + f.name + ":"];
    var body := CodeLines(f.code);
    var h := Unlines(head);
    var c := Unlines(body);
    assert h == "func " + f.name + ":\n" by {
      assert head[..0] == [];
    }
    assert Unlines([""]) == "\n" by {
      assert [""][..0] == [];
    }
    CodeTextLines(f.code);
    UnlinesAppend(head, body);
    UnlinesAppend(head + body, [""]);
    assert Unlines(head + body + [""]) == h + c + "\n";
  }

  /** When no operand holds a newline, no listed line does, so the lines
      of `FunctionLines` are the dump's lines one for one. */
  lemma FunctionLinesSingle(f: Function)
    requires NoNewline(f.name)
    requires forall k :: 0 <= k < |f.code| ==> OneLine(f.code[k])
    ensures forall k :: 0 <= k < |f.code| ==> NoNewline(CodeLines(f.code)[k])
    ensures NoNewline("func " + f.name + ":")
  {
    CodeLinesAt(f.code);
    forall k | 0 <= k < |f.code| ensures NoNewline(CodeLines(f.code)[k]) {
      InstrTextOneLine(f.code[k]);
    }
  }
}
