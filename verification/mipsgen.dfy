/** The backend (mips/MipsGen.java): TAC to a MIPS32 listing for SPIM.

    Per function it pre-scans the code for every named operand, gives each a
    word of the stack frame at a negative offset from `$fp` (parameters
    first, in first-seen order), sizes the frame, and translates instruction
    by instruction through three scratch registers. PARAM operands wait in a
    queue until a CALL takes its arguments off the end. String literals are
    pooled program-wide, one `.asciiz` per distinct literal text.

    The translator's state is the record `Gen`; every emitter returns the next
    state or the exception the source throws. */
module MipsGen {
  import opened Common
  import Int32
  import opened Tac
  import opened TacFacts
  import opened Mips

  /** The label that stands in for a null label operand. */
  const NULL_LABEL: string := "__L_null"

  datatype Gen = Gen(
    text: seq<Asm>,
    data: seq<Data>,
    slots: map<string, int>,   // operand name -> offset from $fp
    next: int,                 // the offset the next new name gets
    queue: seq<Operand>,       // pending PARAM operands
    pool: map<string, string>, // string literal text -> its data label
    strCount: nat,
    frame: int,
    nullDone: bool)            // the null label was already defined here

  function Append(g: Gen, code: seq<Asm>): (g': Gen)
    ensures g'.text == g.text + code
  {
    g.(text := g.text + code)
  }

  // ---------------------------------------------------------------------
  // Literal operands
  // ---------------------------------------------------------------------

  /** Text in double quotes. */
  predicate IsStringLit(o: Operand) {
    o.Some? && |o.value| >= 2 && o.value[0] == '"' && o.value[|o.value| - 1] == '"'
  }

  /** Text in single quotes with at least one character between them. */
  predicate IsCharLit(o: Operand) {
    o.Some? && |o.value| >= 3 && o.value[0] == '\'' && o.value[|o.value| - 1] == '\''
  }

  /** The character a backslash escape stands for: `\n \t \r \\ \' \" \0`,
      and any other character for itself. */
  function EscapeChar(e: char): char {
    match e
    case 'n' => '\n'
    case 't' => '\t'
    case 'r' => '\r'
    case '\\' => '\\'
    case '\'' => '\''
    case '"' => '"'
    case '0' => 0 as char
    case _ => e
  }

  /** The character code of a char literal: a one-character body is that
      character; a two-character body starting with a backslash is an
      escape; anything longer is read as its first character. */
  function CharCode(lit: string): int
    requires IsCharLit(Some(lit))
  {
    var body := lit[1..|lit| - 1];
    if |body| == 1 then body[0] as int
    else if |body| == 2 && body[0] == '\\' then EscapeChar(body[1]) as int
    else body[0] as int
  }

  // ---------------------------------------------------------------------
  // Frame layout
  // ---------------------------------------------------------------------

  /** Java `align16`: `n` rounded up to a multiple of 16, computed with the
      truncating `%` and in `int` arithmetic. */
  function Align16(n: int): int
    requires Int32.InRange(n)
  {
    var r := Int32.Rem(n, 16);
    if r == 0 then n else Int32.Wrap(n + (16 - r))
  }

  /** Frame size for `count` slots: the slots plus 8 bytes for the saved `$ra`
      and `$fp`, rounded up to 16, at least 16. */
  function FrameBytes(count: nat): int {
    var localsBytes := Int32.Wrap(count * 4);
    var f := Align16(Int32.Wrap(localsBytes + 8));
    if f < 16 then 16 else f
  }

  /** Reserve the frame, save `$ra` and `$fp` at its bottom, and point `$fp`
      at its top (the old `$sp`), so slots at negative offsets land inside. */
  function Prologue(frame: int): seq<Asm> {
    [Addiu(SP, SP, -frame), Sw(RA, 0, SP), Sw(FP, 4, SP), Addiu(FP, SP, frame)]
  }

  function Epilogue(frame: int): seq<Asm> {
    [Lw(RA, 0, SP), Lw(FP, 4, SP), Addiu(SP, SP, frame), Jr(RA)]
  }

  function Return0(frame: int): seq<Asm> {
    [Li(V0, 0)] + Epilogue(frame) + [Blank]
  }

  // ---------------------------------------------------------------------
  // Slots
  // ---------------------------------------------------------------------

  /** `slotOf` on a non-null name: a known name keeps its slot and nothing
      changes; a new name gets the next free offset, the counter moves one
      word down, and every other name keeps its slot. */
  function Assign(g: Gen, name: string): (r: (int, Gen))
    ensures name in r.1.slots && r.1.slots[name] == r.0
    ensures name in g.slots ==> r.0 == g.slots[name] && r.1 == g
    ensures name !in g.slots ==>
      && r.0 == g.next
      && r.1 == g.(slots := r.1.slots, next := g.next - 4)
      && r.1.slots.Keys == g.slots.Keys + {name}
      && forall n :: n in g.slots ==> r.1.slots[n] == g.slots[n]
  {
    if name in g.slots then (g.slots[name], g)
    else (g.next, g.(slots := g.slots[name := g.next], next := g.next - 4))
  }

  function SlotOf(g: Gen, name: Operand): Outcome<(int, Gen)> {
    if name.None? then Thrown("java.lang.IllegalArgumentException: slot name null")
    else Ok(Assign(g, name.value))
  }

  /** The operands `addName` keeps: non-null, and not an int, string or char literal. */
  predicate Slotted(o: Operand) {
    o.Some? && !IsIntOperand(o) && !IsStringLit(o) && !IsCharLit(o)
  }

  /** The operand positions the pre-scan reads, per opcode: none for labels
      and jumps, the condition of IFZ, the result of CALL, the operand of
      PARAM and RET, offset and result of LOAD, value and offset of STORE,
      and all three otherwise. */
  function ScanOperands(i: Instr): seq<Operand> {
    match i.op
    case LABEL => []
    case GOTO => []
    case IFZ => [i.a]
    case CALL => [i.r]
    case PARAM => [i.a]
    case RET => [i.a]
    case LOAD => [i.b, i.r]
    case STORE => [i.a, i.r]
    case _ => [i.a, i.b, i.r]
  }

  /** Insertion into a `LinkedHashSet` through `addName`. */
  function AddNames(names: seq<string>, os: seq<Operand>): seq<string> {
    if |os| == 0 then names
    else
      var prev := AddNames(names, os[..|os| - 1]);
      var o := os[|os| - 1];
      if Slotted(o) && o.value !in prev then prev + [o.value] else prev
  }

  function AsOperands(ps: seq<string>): (os: seq<Operand>)
    ensures |os| == |ps| && forall k :: 0 <= k < |ps| ==> os[k] == Some(ps[k])
  {
    seq(|ps|, k requires 0 <= k < |ps| => Some(ps[k]))
  }

  /** The names the pre-scan collects: parameters first, then the scanned
      operands of the code, each name once, in first-seen order. */
  function ScanNames(f: Function): seq<string> {
    AddNames(AddNames([], AsOperands(f.params)), Gather(f.code, ScanOperands))
  }

  /** `slotOf` on each collected name, in order. */
  function AllocAll(g: Gen, names: seq<string>): (g': Gen)
    ensures g'.text == g.text && g'.data == g.data && g'.pool == g.pool
    ensures g'.queue == g.queue && g'.frame == g.frame && g'.nullDone == g.nullDone
    ensures forall k :: 0 <= k < |names| ==> names[k] in g'.slots
  {
    if |names| == 0 then g else Assign(AllocAll(g, names[..|names| - 1]), names[|names| - 1]).1
  }

  // ---------------------------------------------------------------------
  // String pool
  // ---------------------------------------------------------------------

  /** `escapeAsciizBody`: a double quote, newline, tab or carriage
      return becomes its backslash escape; every other character, a backslash
      included, is copied. */
  function EscapeBodyAsWritten(s: string): string {
    if |s| == 0 then [] else EscapeOne(s[0]) + EscapeBodyAsWritten(s[1..])
  }

  function EscapeOne(c: char): string {
    if c == '"' then "\\\""
    else if c == '\n' then "\\n"
    else if c == '\t' then "\\t"
    else if c == '\r' then "\\r"
    else [c]
  }

  /** The escaping corrected to respect existing escapes: a backslash and the
      character after it are copied as a pair, a lone final backslash is
      doubled, and raw quotes and line breaks are escaped as before. */
  function EscapeBody(s: string): string
    decreases |s|
  {
    if |s| == 0 then []
    else if s[0] == '\\' then
      if |s| == 1 then "\\\\" else s[..2] + EscapeBody(s[2..])
    else EscapeOne(s[0]) + EscapeBody(s[1..])
  }

  function StrLabel(k: nat): string {
    "str_" + NatToString(k)
  }

  /** `stringLabel`: the pooled label of a literal; a new literal gets the next
      `str_<k>` and one `.asciiz` line of its escaped body. */
  function StringLabel(g: Gen, lit: string): (r: (string, Gen))
    requires IsStringLit(Some(lit))
  {
    if lit in g.pool then (g.pool[lit], g)
    else
      var lbl := StrLabel(g.strCount);
      var body := EscapeBodyAsWritten(lit[1..|lit| - 1]);
      (lbl, g.(pool := g.pool[lit := lbl], strCount := g.strCount + 1,
                 data := g.data + [Asciiz(lbl, body)]))
  }

  // ---------------------------------------------------------------------
  // Operands into registers
  // ---------------------------------------------------------------------

  /** `emitLoad`: an int literal by `li`, a char literal by `li` of its code,
      and everything else from its slot. A string literal, which the
      pre-scan gives no slot, is read from a slot allocated on the spot. */
  function EmitLoad(g: Gen, src: Operand, reg: Reg): (r: Outcome<Gen>)
    ensures r.Ok? <==> src.Some?
    ensures r.Ok? ==> var g' := r.value;
      && |g'.text| == |g.text| + 1 && g.text <= g'.text
      && g'.data == g.data && g'.pool == g.pool && g'.queue == g.queue && g'.frame == g.frame
      && (IsIntOperand(src) || IsCharLit(src) ==> g'.slots == g.slots)
      && (!IsIntOperand(src) && !IsCharLit(src) ==>
            src.value in g'.slots && g'.text[|g.text|] == Lw(reg, g'.slots[src.value], FP))
  {
    if IsIntOperand(src) then Ok(Append(g, [Li(reg, LitValue(src.value))]))
    else if IsCharLit(src) then Ok(Append(g, [Li(reg, CharCode(src.value))]))
    else
      var s :- SlotOf(g, src);
      Ok(Append(s.1, [Lw(reg, s.0, FP)]))
  }

  /** The operand loads of `emitMov`, `emitArgToA0` and `emitArgToAi`: as
      `emitLoad`, except that a string literal is loaded as the address of its
      pooled label and gets no slot. */
  function EmitOperand(g: Gen, src: Operand, reg: Reg): (r: Outcome<Gen>)
    ensures r.Ok? <==> src.Some?
    ensures r.Ok? ==> var g' := r.value;
      && |g'.text| == |g.text| + 1 && g.text <= g'.text
      && g.data <= g'.data && g'.queue == g.queue && g'.frame == g.frame
    ensures r.Ok? && IsStringLit(src) ==> var g' := r.value;
      && g'.slots == g.slots && src.value in g'.pool && g'.text[|g.text|] == La(reg, g'.pool[src.value])
    ensures !IsStringLit(src) ==> r == EmitLoad(g, src, reg)
  {
    if IsIntOperand(src) then Ok(Append(g, [Li(reg, LitValue(src.value))]))
    else if IsCharLit(src) then Ok(Append(g, [Li(reg, CharCode(src.value))]))
    else if IsStringLit(src) then
      var (l, g1) := StringLabel(g, src.value);
      Ok(Append(g1, [La(reg, l)]))
    else
      var s :- SlotOf(g, src);
      Ok(Append(s.1, [Lw(reg, s.0, FP)]))
  }

  /** `emitStore`: the register into the destination's slot, allocating one
      for a new name. */
  function EmitStore(g: Gen, reg: Reg, dst: Operand): (r: Outcome<Gen>)
    ensures r.Ok? <==> dst.Some?
    ensures r.Ok? ==> var g' := r.value;
      && dst.value in g'.slots && g'.text == g.text + [Sw(reg, g'.slots[dst.value], FP)]
      && g'.data == g.data && g'.queue == g.queue && g'.frame == g.frame
  {
    var s :- SlotOf(g, dst);
    Ok(Append(s.1, [Sw(reg, s.0, FP)]))
  }

  // ---------------------------------------------------------------------
  // Instructions
  // ---------------------------------------------------------------------

  /** The computing lines of a binary opcode, from `$t0` and `$t1` into `$t2`. */
  function OpCode(op: Op): seq<Asm>
    requires IsBinary(op)
  {
    match op
    case ADD => [Alu3(ADDU, T2, T0, T1)]
    case SUB => [Alu3(SUBU, T2, T0, T1)]
    case MUL => [Alu3(Alu.MUL, T2, T0, T1)]
    case DIV => [Div(T0, T1), Mflo(T2)]
    case MOD => [Div(T0, T1), Mfhi(T2)]
    case LT => [Alu3(SLT, T2, T0, T1)]
    case LE => [Alu3(SLT, T2, T1, T0), Xori(T2, T2, 1)]
    case GT => [Alu3(SLT, T2, T1, T0)]
    case GE => [Alu3(SLT, T2, T0, T1), Xori(T2, T2, 1)]
    case EQ => [Alu3(SEQ, T2, T0, T1)]
    case NEQ => [Alu3(SNE, T2, T0, T1)]
    case AND => [Alu3(SNE, T0, T0, Zero), Alu3(SNE, T1, T1, Zero), Alu3(Alu.AND, T2, T0, T1)]
    case OR => [Alu3(SNE, T0, T0, Zero), Alu3(SNE, T1, T1, Zero), Alu3(Alu.OR, T2, T0, T1)]
  }

  /** The text grew, the data grew, and the queue and the frame are kept:
      what every emitter but PARAM and CALL does to the state. */
  predicate Extends(g: Gen, g': Gen) {
    g.text <= g'.text && g.data <= g'.data && g'.queue == g.queue && g'.frame == g.frame
  }

  /** `emitBinArith`, `emitCmp` and `emitLogic`: both operands, the operation,
      the result. */
  function EmitBinary(g: Gen, i: Instr): (r: Outcome<Gen>)
    requires IsBinary(i.op)
    ensures r.Ok? ==> Extends(g, r.value)
  {
    var g1 :- EmitLoad(g, i.a, T0);
    var g2 :- EmitLoad(g1, i.b, T1);
    EmitStore(Append(g2, OpCode(i.op)), T2, i.r)
  }

  function EmitNot(g: Gen, i: Instr): (r: Outcome<Gen>)
    ensures r.Ok? ==> Extends(g, r.value)
  {
    var g1 :- EmitLoad(g, i.a, T0);
    EmitStore(Append(g1, [Alu3(SNE, T0, T0, Zero), Xori(T2, T0, 1)]), T2, i.r)
  }

  /** `emitMov`: nothing without a destination. */
  function EmitMov(g: Gen, i: Instr): (r: Outcome<Gen>)
    ensures r.Ok? ==> Extends(g, r.value)
  {
    if i.r.None? then Ok(g)
    else
      var g1 :- EmitOperand(g, i.a, T0);
      EmitStore(g1, T0, i.r)
  }

  /** LOAD r = a[b]: the word at the global's address plus the byte offset. */
  function EmitLoadMem(g: Gen, i: Instr): (r: Outcome<Gen>)
    ensures r.Ok? ==> Extends(g, r.value)
  {
    var g1 :- EmitLoad(Append(g, [La(T1, Text(i.a))]), i.b, T2);
    EmitStore(Append(g1, [Alu3(ADDU, T1, T1, T2), Lw(T0, 0, T1)]), T0, i.r)
  }

  /** STORE a -> b[r]. */
  function EmitStoreMem(g: Gen, i: Instr): (r: Outcome<Gen>)
    ensures r.Ok? ==> Extends(g, r.value)
  {
    var g1 :- EmitLoad(g, i.a, T0);
    var g2 :- EmitLoad(Append(g1, [La(T1, Text(i.b))]), i.r, T2);
    Ok(Append(g2, [Alu3(ADDU, T1, T1, T2), Sw(T0, 0, T1)]))
  }

  /** A label operand as written to the listing: null becomes `__L_null`. */
  function Canon(l: Operand): string {
    if l.None? then NULL_LABEL else l.value
  }

  /** `emitLabel`: the null label is defined once per function; a second one
      becomes a comment. */
  function EmitLabel(g: Gen, l: Operand): Gen {
    if l.None? then
      if g.nullDone then Append(g, [Comment("(skip duplicate null label)")])
      else Append(g.(nullDone := true), [LabelAt(NULL_LABEL)])
    else Append(g, [LabelAt(l.value)])
  }

  /** The argument count of a CALL: `Integer.parseInt(b)`, 0 when b is null
      or does not parse. */
  function CallCount(b: Operand): int {
    if b.None? then 0
    else match Int32.ParseInt(b.value)
      case Ok(n) => n
      case Thrown(_) => 0
  }

  function ArgReg(k: nat): Reg {
    if k == 0 then A0 else if k == 1 then A1 else if k == 2 then A2 else A3
  }

  /** `emitArgToA0(args, 0)`: the first argument, or 0 when there is none. */
  function ArgToA0(g: Gen, args: seq<Operand>): (r: Outcome<Gen>)
    ensures r.Ok? ==> Extends(g, r.value)
  {
    if |args| == 0 then Ok(Append(g, [Li(A0, 0)])) else EmitOperand(g, args[0], A0)
  }

  /** The first four arguments into `$a0`-`$a3`; the rest are dropped. */
  function ArgsToRegs(g: Gen, args: seq<Operand>, k: nat): (r: Outcome<Gen>)
    ensures r.Ok? ==> Extends(g, r.value)
    decreases |args| - k
  {
    if k >= |args| || k >= 4 then Ok(g)
    else
      var g1 :- EmitOperand(g, args[k], ArgReg(k));
      ArgsToRegs(g1, args, k + 1)
  }

  /** `emitCall`: the call takes the last `n` queued operands, then the
      built-in printers become system calls and any other callee a `jal`,
      followed by storing `$v0` when the call has a result. A null callee
      fails the `switch`. Whatever the callee, the queue loses exactly the
      call's arguments. */
  function EmitCall(g: Gen, i: Instr): (r: Outcome<Gen>)
    ensures i.a.None? ==> r.Thrown?
    ensures r.Ok? ==> Extends(g.(queue := PopArgs(g.queue, CallCount(i.b))), r.value)
  {
    var n := CallCount(i.b);
    var args := CallArgs(g.queue, n);
    var g1 := g.(queue := PopArgs(g.queue, n));
    if i.a.None? then Thrown("java.lang.NullPointerException")
    else
      var callee := i.a.value;
      if callee == "printInt" || callee == "print_int" then
        var g2 :- ArgToA0(g1, args);
        Ok(Append(g2, [Li(V0, 1), Syscall]))
      else if callee == "printChar" || callee == "print_char" then
        var g2 :- ArgToA0(g1, args);
        Ok(Append(g2, [Li(V0, 11), Syscall]))
      else if callee == "printString" || callee == "print_str" then
        var g2 :- ArgToA0(g1, args);
        Ok(Append(g2, [Li(V0, 4), Syscall]))
      else if callee == "println" || callee == "nl" then
        Ok(Append(g1, [Li(A0, 10), Li(V0, 11), Syscall]))
      else
        var g2 :- ArgsToRegs(g1, args, 0);
        var g3 := Append(g2, [Jal(callee)]);
        if i.r.Some? then EmitStore(g3, V0, i.r) else Ok(g3)
  }

  /** `emitRet`: the value (0 when absent) into `$v0`, then the epilogue,
      which returns to the caller. */
  function EmitRet(g: Gen, i: Instr): (r: Outcome<Gen>)
    ensures r.Ok?
    ensures r.Ok? ==> Extends(g, r.value)
    ensures r.Ok? ==> var t := r.value.text;
      |t| >= |g.text| + 5 && t[|t| - 5..] == Epilogue(g.frame) + [Blank]
  {
    var g1 := if i.a.None? then Append(g, [Li(V0, 0)]) else EmitLoad(g, i.a, V0).value;
    Ok(Append(g1, Epilogue(g.frame) + [Blank]))
  }

  /** The queue as the backend keeps it: PARAM appends, CALL removes the
      last `CallCount` operands. */
  function BackendQueue(q: seq<Operand>, i: Instr): seq<Operand> {
    if i.op == PARAM then q + [i.a]
    else if i.op == CALL then PopArgs(q, CallCount(i.b))
    else q
  }

  /** The translation of one instruction: the text and data only grow, the
      frame is kept, and the queue evolves as `BackendQueue` says. */
  function EmitInstr(g: Gen, i: Instr): (r: Outcome<Gen>)
    ensures r.Ok? ==> Extends(g.(queue := BackendQueue(g.queue, i)), r.value)
  {
    match i.op
    case MOV => EmitMov(g, i)
    case NOT => EmitNot(g, i)
    case LOAD => EmitLoadMem(g, i)
    case STORE => EmitStoreMem(g, i)
    case LABEL => Ok(EmitLabel(g, i.a))
    case IFZ =>
      var g1 :- EmitLoad(g, i.a, T0);
      Ok(Append(g1, [Beqz(T0, Canon(i.b))]))
    case GOTO => Ok(Append(g, [J(Canon(i.a))]))
    case PARAM => Ok(g.(queue := g.queue + [i.a]))
    case CALL => EmitCall(g, i)
    case RET => EmitRet(g, i)
    case _ => EmitBinary(g, i)
  }

  function EmitCode(g: Gen, c: seq<Instr>): (r: Outcome<Gen>)
    ensures r.Ok? ==> g.text <= r.value.text && g.data <= r.value.data && r.value.frame == g.frame
  {
    if |c| == 0 then Ok(g)
    else
      var g1 :- EmitCode(g, c[..|c| - 1]);
      EmitInstr(g1, c[|c| - 1])
  }

  /** The first four parameters are stored from `$a0`-`$a3` into their slots. */
  function StoreParams(g: Gen, ps: seq<string>, k: nat): (r: Outcome<Gen>)
    ensures r.Ok? ==> Extends(g, r.value)
    decreases |ps| - k
  {
    if k >= |ps| || k >= 4 then Ok(g)
    else
      var g1 := EmitStore(g, ArgReg(k), Some(ps[k])).value;
      StoreParams(g1, ps, k + 1)
  }

  /** The state at the start of a function: slots, queue and the null-label
      flag reset; the text, data and string pool carry on. */
  function Reset(g: Gen): Gen {
    g.(slots := map[], next := -4, queue := [], nullDone := false)
  }

  /** Everything `emitFunction` does before the final fallback: pre-scan and
      frame, header and prologue, parameter stores, and the code. The text
      and data only grow, and the function's label is the first line added
      after the optional `.globl main`. */
  function EmitBody(g: Gen, f: Function): (r: Outcome<Gen>)
    ensures r.Ok? ==> g.text <= r.value.text && g.data <= r.value.data
    ensures r.Ok? ==> var k := |g.text| + (if f.name == "main" then 1 else 0);
      k < |r.value.text| && r.value.text[k] == LabelAt(f.name)
  {
    var g1 := AllocAll(Reset(g), ScanNames(f));
    var frame := FrameBytes(|g1.slots|);
    var header := (if f.name == "main" then [Globl("main")] else []) + [LabelAt(f.name)];
    var g2 := Append(g1.(frame := frame), header + Prologue(frame));
    assert g2.text[|g.text| + (if f.name == "main" then 1 else 0)] == LabelAt(f.name);
    var g3 :- StoreParams(g2, f.params, 0);
    EmitCode(g3, f.code)
  }

  predicate HasRet(c: seq<Instr>) {
    exists k :: 0 <= k < |c| && c[k].op == RET
  }

  /** `emitFunction`: the fallback "return 0" is appended exactly when the
      code has no RET anywhere (the `sawRet` flag). */
  function EmitFunction(g: Gen, f: Function): (r: Outcome<Gen>)
    ensures r.Ok? ==> g.text <= r.value.text && g.data <= r.value.data
    ensures r.Ok? && !HasRet(f.code) ==> var t := r.value.text;
      |t| >= 6 && t[|t| - 6..] == Return0(r.value.frame)
  {
    var g1 :- EmitBody(g, f);
    Ok(if HasRet(f.code) then g1 else Append(g1, Return0(g1.frame)))
  }

  /** Code whose last instruction is a RET cannot run past its end. */
  predicate EndsInRet(c: seq<Instr>) {
    |c| > 0 && c[|c| - 1].op == RET
  }

  /** `emitFunction` corrected: the fallback "return 0" is appended whenever
      the code does not end in a RET. */
  function EmitFunctionCorrected(g: Gen, f: Function): (r: Outcome<Gen>)
    ensures r.Ok? ==> g.text <= r.value.text && g.data <= r.value.data
  {
    var g1 :- EmitBody(g, f);
    Ok(if EndsInRet(f.code) then g1 else Append(g1, Return0(g1.frame)))
  }

  /** The functions in order; the text and data only grow. */
  function EmitFunctions(g: Gen, fs: seq<Function>): (r: Outcome<Gen>)
    ensures r.Ok? ==> g.text <= r.value.text && g.data <= r.value.data
  {
    if |fs| == 0 then Ok(g)
    else
      var g1 :- EmitFunctions(g, fs[..|fs| - 1]);
      EmitFunction(g1, fs[|fs| - 1])
  }

  /** A `.space` reservation per global, word aligned. */
  function GlobalData(gs: seq<Global>): seq<Data> {
    if |gs| == 0 then []
    else GlobalData(gs[..|gs| - 1]) + [Align2, DataLabel(gs[|gs| - 1].name), Space(gs[|gs| - 1].bytes)]
  }

  /** The entry stub: call `main`, then exit (syscall 10). */
  const Start: seq<Asm> :=
    [TextSegment, Globl("__start"), LabelAt("__start"), Jal("main"), Li(V0, 10), Syscall, Blank]

  /** `emitProgram`: the `.data` lines (globals, then the string pool as it
      fills) and the `.text` lines. The listing opens with the entry stub,
      and the data with the segment directive and every global's
      reservation, whatever the functions add. */
  function EmitProgram(p: Program): (r: Outcome<(seq<Data>, seq<Asm>)>)
    ensures r.Ok? ==> Start <= r.value.1 && [DataSegment] + GlobalData(p.globals) <= r.value.0
  {
    var g0 := Gen(Start, [DataSegment] + GlobalData(p.globals), map[], -4, [], map[], 0, 0, false);
    var g :- EmitFunctions(g0, p.functions);
    Ok((g.data, g.text))
  }
}
