/** Translating a function touches only the stack words its pre-scan
    reserved: no slot is allocated after the frame is sized, and every
    `$fp`-relative load and store lands between the saved registers and the
    top of the frame. Along the way: the PARAM queue evolves as TacFacts
    describes it, and the labels the listing defines are the TAC labels. */
module MipsFrame {
  import opened Common
  import Int32
  import opened Tac
  import opened TacFacts
  import opened Mips
  import opened MipsGen
  import opened MipsLayout

  /** The `$fp` offset a line accesses, if it is a load or store through `$fp`. */
  function FpOff(a: Asm): Option<int> {
    match a
    case Lw(_, off, base) => if base == FP then Some(off) else None
    case Sw(_, off, base) => if base == FP then Some(off) else None
    case _ => None
  }

  /** Every `$fp` access in `code` goes to one of the slots. */
  predicate InSlots(code: seq<Asm>, slots: map<string, int>) {
    forall k :: 0 <= k < |code| && FpOff(code[k]).Some? ==> FpOff(code[k]).value in slots.Values
  }

  /** The labels `code` defines, in order. */
  function Defs(code: seq<Asm>): seq<string> {
    if |code| == 0 then []
    else Defs(code[..|code| - 1]) + (if code[|code| - 1].LabelAt? then [code[|code| - 1].name] else [])
  }

  lemma {:induction false} DefsAppend(a: seq<Asm>, b: seq<Asm>)
    ensures Defs(a + b) == Defs(a) + Defs(b)
    decreases |b|
  {
    if |b| == 0 {
      assert a + b == a;
    } else {
      assert (a + b)[..|a + b| - 1] == a + b[..|b| - 1];
      DefsAppend(a, b[..|b| - 1]);
    }
  }

  lemma InSlotsAppend(a: seq<Asm>, b: seq<Asm>, slots: map<string, int>)
    requires InSlots(a, slots) && InSlots(b, slots)
    ensures InSlots(a + b, slots)
  {
    forall k | 0 <= k < |a + b| && FpOff((a + b)[k]).Some?
      ensures FpOff((a + b)[k]).value in slots.Values
    {
      if k < |a| {
        assert (a + b)[k] == a[k];
      } else {
        assert (a + b)[k] == b[k - |a|];
      }
    }
  }

  /** The operand is a literal, or its name has a slot. */
  predicate Covered(slots: map<string, int>, o: Operand) {
    Slotted(o) ==> o.value in slots
  }

  predicate QueueCovered(slots: map<string, int>, q: seq<Operand>) {
    forall k :: 0 <= k < |q| ==> Covered(slots, q[k])
  }

  /** Text and data appended, every new `$fp` access to an existing slot, no
      slot added, the frame kept, and the pool invariant kept. */
  ghost predicate Grows(g: Gen, g': Gen) {
    && g.text <= g'.text && g.data <= g'.data
    && InSlots(g'.text[|g.text|..], g.slots)
    && g'.slots == g.slots && g'.next == g.next && g'.frame == g.frame
    && (PoolInv(g) ==> PoolInv(g'))
  }

  /** A step inside one instruction: it grows the text, defines no label, and
      leaves the queue and the null-label flag alone. */
  ghost predicate Step(g: Gen, g': Gen) {
    && Grows(g, g')
    && Defs(g'.text[|g.text|..]) == []
    && g'.queue == g.queue && g'.nullDone == g.nullDone
  }

  /** Lines that neither access `$fp` nor define a label. */
  predicate Plain(code: seq<Asm>) {
    forall k :: 0 <= k < |code| ==> FpOff(code[k]).None? && !code[k].LabelAt?
  }

  lemma StepRefl(g: Gen)
    ensures Step(g, g)
  {
    assert g.text[|g.text|..] == [];
  }

  lemma StepTrans(g1: Gen, g2: Gen, g3: Gen)
    requires Step(g1, g2) && Step(g2, g3)
    ensures Step(g1, g3)
  {
    var a := g2.text[|g1.text|..];
    var b := g3.text[|g2.text|..];
    assert g3.text[|g1.text|..] == a + b;
    InSlotsAppend(a, b, g1.slots);
    DefsAppend(a, b);
  }

  /** Appending lines that neither access `$fp` nor define a label is a step. */
  lemma AppendStep(g: Gen, code: seq<Asm>)
    requires Plain(code)
    ensures Step(g, Append(g, code))
  {
    var g' := Append(g, code);
    assert g'.text[|g.text|..] == code;
    NoDefs(code);
  }

  lemma {:induction false} NoDefs(code: seq<Asm>)
    requires forall k :: 0 <= k < |code| ==> !code[k].LabelAt?
    ensures Defs(code) == []
  {
    if |code| > 0 {
      NoDefs(code[..|code| - 1]);
    }
  }

  /** Pooling a string literal is a step: only the pool and the data change. */
  lemma StringStep(g: Gen, lit: string)
    requires IsStringLit(Some(lit))
    ensures Step(g, StringLabel(g, lit).1)
  {
    var g1 := StringLabel(g, lit).1;
    assert g1.text == g.text && g1.slots == g.slots && g1.queue == g.queue;
    assert g1.text[|g.text|..] == [];
    if PoolInv(g) {
      StringLabelSpec(g, lit);
    }
  }

  /** Loading a name that has a slot is a step. */
  lemma SlotLoadStep(g: Gen, src: Operand, reg: Reg)
    requires Slotted(src) && src.value in g.slots
    ensures EmitLoad(g, src, reg) == Ok(Append(g, [Lw(reg, g.slots[src.value], FP)]))
    ensures Step(g, Append(g, [Lw(reg, g.slots[src.value], FP)]))
  {
    var code := [Lw(reg, g.slots[src.value], FP)];
    assert Append(g, code).text[|g.text|..] == code;
    NoDefs(code);
  }

  /** `emitLoad` of a covered operand other than a string literal is a
      step: literals need no slot, and a name reads its own. A string literal
      is the exception: the pre-scan gives it no slot, so `emitLoad` would
      add one after the frame is sized. */
  lemma LoadStep(g: Gen, src: Operand, reg: Reg)
    requires Covered(g.slots, src) && !IsStringLit(src)
    ensures EmitLoad(g, src, reg).Ok? ==> Step(g, EmitLoad(g, src, reg).value)
  {
    if src.None? {
    } else if IsIntOperand(src) {
      AppendStep(g, [Li(reg, LitValue(src.value))]);
    } else if IsCharLit(src) {
      AppendStep(g, [Li(reg, CharCode(src.value))]);
    } else {
      SlotLoadStep(g, src, reg);
    }
  }

  /** The operand loads of moves and call arguments take every covered
      operand, string literals included, in a step: a string literal only
      adds to the pool. */
  lemma OperandStep(g: Gen, src: Operand, reg: Reg)
    requires Covered(g.slots, src)
    ensures EmitOperand(g, src, reg).Ok? ==> Step(g, EmitOperand(g, src, reg).value)
  {
    if IsStringLit(src) {
      var (l, g1) := StringLabel(g, src.value);
      StringStep(g, src.value);
      AppendStep(g1, [La(reg, l)]);
      StepTrans(g, g1, Append(g1, [La(reg, l)]));
    } else {
      LoadStep(g, src, reg);
    }
  }

  /** Storing to a name that has a slot is a step. */
  lemma StoreStep(g: Gen, reg: Reg, dst: Operand)
    requires dst.Some? && dst.value in g.slots
    ensures EmitStore(g, reg, dst).Ok? && Step(g, EmitStore(g, reg, dst).value)
  {
    var off := g.slots[dst.value];
    var g' := EmitStore(g, reg, dst).value;
    assert g' == Append(g, [Sw(reg, off, FP)]);
    assert g'.text[|g.text|..] == [Sw(reg, off, FP)];
    NoDefs([Sw(reg, off, FP)]);
  }

  // ---------------------------------------------------------------------
  // One instruction
  // ---------------------------------------------------------------------

  lemma OpCodePlain(op: Op)
    requires IsBinary(op)
    ensures Plain(OpCode(op))
  {
  }

  lemma EpiloguePlain(frame: int)
    ensures Plain(Epilogue(frame) + [Blank])
  {
  }

  /** The instructions whose result `emitStore` writes. */
  predicate StoresResult(op: Op) {
    op == MOV || op == NOT || op == LOAD || op == CALL || IsBinary(op)
  }

  /** What the pre-scan guarantees about an instruction once the slots are
      allocated: every scanned operand is covered, and a stored result is a
      name (the pre-scan skips literals, so a literal result would get a slot
      the frame has no room for). */
  predicate Prepared(slots: map<string, int>, i: Instr) {
    && (forall o :: o in ScanOperands(i) ==> Covered(slots, o))
    && (StoresResult(i.op) && i.r.Some? ==> Slotted(i.r))
  }

  /** The operands an instruction reads through `emitLoad` rather than the
      string-aware loads of moves and call arguments. */
  function LoadOperands(i: Instr): seq<Operand> {
    if i.op == IFZ || i.op == RET || i.op == NOT then [i.a]
    else if i.op == LOAD then [i.b]
    else if i.op == STORE then [i.a, i.r]
    else if IsBinary(i.op) then [i.a, i.b]
    else []
  }

  /** No string literal reaches `emitLoad`: the condition under which the
      backend as written keeps to the pre-scan's frame. */
  predicate NoStringLoad(i: Instr) {
    forall o :: o in LoadOperands(i) ==> !IsStringLit(o)
  }

  /** Both operands of a binary instruction into `$t0` and `$t1`. */
  lemma OperandsStep(g: Gen, a: Operand, b: Operand)
    requires Covered(g.slots, a) && Covered(g.slots, b) && !IsStringLit(a) && !IsStringLit(b)
    requires EmitLoad(g, a, T0).Ok? && EmitLoad(EmitLoad(g, a, T0).value, b, T1).Ok?
    ensures Step(g, EmitLoad(EmitLoad(g, a, T0).value, b, T1).value)
  {
    LoadStep(g, a, T0);
    var g1 := EmitLoad(g, a, T0).value;
    LoadStep(g1, b, T1);
    StepTrans(g, g1, EmitLoad(g1, b, T1).value);
  }

  /** A prepared binary instruction's three operands are covered. */
  lemma BinaryCovered(slots: map<string, int>, i: Instr)
    requires IsBinary(i.op) && Prepared(slots, i)
    ensures Covered(slots, i.a) && Covered(slots, i.b) && Covered(slots, i.r)
  {
    assert ScanOperands(i) == [i.a, i.b, i.r];
    assert i.a in ScanOperands(i) && i.b in ScanOperands(i) && i.r in ScanOperands(i);
  }

  lemma BinaryStep(g: Gen, i: Instr)
    requires IsBinary(i.op) && Prepared(g.slots, i) && NoStringLoad(i)
    requires EmitBinary(g, i).Ok?
    ensures Step(g, EmitBinary(g, i).value)
  {
    BinaryCovered(g.slots, i);
    assert i.a in LoadOperands(i) && i.b in LoadOperands(i);
    OperandsStep(g, i.a, i.b);
    var g2 := EmitLoad(EmitLoad(g, i.a, T0).value, i.b, T1).value;
    OpCodePlain(i.op);
    ThenStore(g2, OpCode(i.op), T2, i.r);
    StepTrans(g, g2, EmitStore(Append(g2, OpCode(i.op)), T2, i.r).value);
  }

  lemma NotStep(g: Gen, i: Instr)
    requires i.op == NOT && Prepared(g.slots, i) && NoStringLoad(i)
    requires EmitNot(g, i).Ok?
    ensures Step(g, EmitNot(g, i).value)
  {
    assert i.a in ScanOperands(i) && i.r in ScanOperands(i) && i.a in LoadOperands(i);
    LoadThenStore(g, i.a, T0, [Alu3(SNE, T0, T0, Zero), Xori(T2, T0, 1)], T2, i.r);
  }

  lemma MovStep(g: Gen, i: Instr)
    requires i.op == MOV && Prepared(g.slots, i)
    requires EmitMov(g, i).Ok?
    ensures Step(g, EmitMov(g, i).value)
  {
    if i.r.None? {
      assert g.text[|g.text|..] == [];
    } else {
      assert i.a in ScanOperands(i) && i.r in ScanOperands(i);
      OperandStep(g, i.a, T0);
      var g1 := EmitOperand(g, i.a, T0).value;
      StoreStep(g1, T0, i.r);
      StepTrans(g, g1, EmitStore(g1, T0, i.r).value);
    }
  }

  lemma LoadMemStep(g: Gen, i: Instr)
    requires i.op == LOAD && Prepared(g.slots, i) && NoStringLoad(i)
    requires EmitLoadMem(g, i).Ok?
    ensures Step(g, EmitLoadMem(g, i).value)
  {
    assert i.b in ScanOperands(i) && i.r in ScanOperands(i) && i.b in LoadOperands(i);
    var g0 := Append(g, [La(T1, Text(i.a))]);
    AppendStep(g, [La(T1, Text(i.a))]);
    var code := [Alu3(ADDU, T1, T1, T2), Lw(T0, 0, T1)];
    LoadThenStore(g0, i.b, T2, code, T0, i.r);
    StepTrans(g, g0, EmitStore(Append(EmitLoad(g0, i.b, T2).value, code), T0, i.r).value);
  }

  /** A load followed by plain code is a step. */
  lemma LoadThen(g: Gen, src: Operand, reg: Reg, code: seq<Asm>)
    requires Covered(g.slots, src) && !IsStringLit(src) && EmitLoad(g, src, reg).Ok? && Plain(code)
    ensures Step(g, Append(EmitLoad(g, src, reg).value, code))
  {
    LoadStep(g, src, reg);
    var g1 := EmitLoad(g, src, reg).value;
    AppendStep(g1, code);
    StepTrans(g, g1, Append(g1, code));
  }

  /** Plain code followed by a store to a slot is a step. */
  lemma ThenStore(g: Gen, code: seq<Asm>, reg: Reg, dst: Operand)
    requires Plain(code) && dst.Some? && dst.value in g.slots
    ensures EmitStore(Append(g, code), reg, dst).Ok?
    ensures Step(g, EmitStore(Append(g, code), reg, dst).value)
  {
    var g1 := Append(g, code);
    AppendStep(g, code);
    StoreStep(g1, reg, dst);
    StepTrans(g, g1, EmitStore(g1, reg, dst).value);
  }

  /** A load, plain code, a store to a slot: a step. */
  lemma LoadThenStore(g: Gen, src: Operand, reg: Reg, code: seq<Asm>, reg2: Reg, dst: Operand)
    requires Covered(g.slots, src) && !IsStringLit(src) && EmitLoad(g, src, reg).Ok? && Plain(code)
    requires dst.Some? && dst.value in g.slots
    ensures EmitStore(Append(EmitLoad(g, src, reg).value, code), reg2, dst).Ok?
    ensures Step(g, EmitStore(Append(EmitLoad(g, src, reg).value, code), reg2, dst).value)
  {
    LoadStep(g, src, reg);
    var g1 := EmitLoad(g, src, reg).value;
    ThenStore(g1, code, reg2, dst);
    StepTrans(g, g1, EmitStore(Append(g1, code), reg2, dst).value);
  }

  lemma StoreMemStep(g: Gen, i: Instr)
    requires i.op == STORE && Prepared(g.slots, i) && NoStringLoad(i)
    requires EmitStoreMem(g, i).Ok?
    ensures Step(g, EmitStoreMem(g, i).value)
  {
    assert i.a in ScanOperands(i) && i.r in ScanOperands(i);
    assert i.a in LoadOperands(i) && i.r in LoadOperands(i);
    var g2 := Append(EmitLoad(g, i.a, T0).value, [La(T1, Text(i.b))]);
    LoadThen(g, i.a, T0, [La(T1, Text(i.b))]);
    var code := [Alu3(ADDU, T1, T1, T2), Sw(T0, 0, T1)];
    LoadThen(g2, i.r, T2, code);
    StepTrans(g, g2, Append(EmitLoad(g2, i.r, T2).value, code));
  }

  lemma IfzStep(g: Gen, cond: Operand, target: string)
    requires Covered(g.slots, cond) && !IsStringLit(cond) && EmitLoad(g, cond, T0).Ok?
    ensures Step(g, Append(EmitLoad(g, cond, T0).value, [Beqz(T0, target)]))
  {
    LoadThen(g, cond, T0, [Beqz(T0, target)]);
  }

  lemma RetStep(g: Gen, i: Instr)
    requires i.op == RET && Prepared(g.slots, i) && NoStringLoad(i)
    requires EmitRet(g, i).Ok?
    ensures Step(g, EmitRet(g, i).value)
  {
    var g1;
    if i.a.None? {
      g1 := Append(g, [Li(V0, 0)]);
      AppendStep(g, [Li(V0, 0)]);
    } else {
      assert i.a in ScanOperands(i) && i.a in LoadOperands(i);
      LoadStep(g, i.a, V0);
      g1 := EmitLoad(g, i.a, V0).value;
    }
    EpiloguePlain(g.frame);
    AppendStep(g1, Epilogue(g.frame) + [Blank]);
    StepTrans(g, g1, Append(g1, Epilogue(g.frame) + [Blank]));
  }

  /** One register load of `ArgsToRegs` is a step that keeps the slots, and
      the rest of the loads continue from it. */
  lemma ArgsToRegsCons(g: Gen, args: seq<Operand>, k: nat)
    requires QueueCovered(g.slots, args)
    requires k < |args| && k < 4 && ArgsToRegs(g, args, k).Ok?
    ensures EmitOperand(g, args[k], ArgReg(k)).Ok?
    ensures var g1 := EmitOperand(g, args[k], ArgReg(k)).value;
      && Step(g, g1) && QueueCovered(g1.slots, args)
      && ArgsToRegs(g1, args, k + 1) == ArgsToRegs(g, args, k)
  {
    OperandStep(g, args[k], ArgReg(k));
  }

  lemma StepThen(g: Gen, g1: Gen, r1: Outcome<Gen>, r: Outcome<Gen>)
    requires Step(g, g1) && r1.Ok? && Step(g1, r1.value) && r == r1
    ensures r.Ok? && Step(g, r.value)
  {
    StepTrans(g, g1, r1.value);
  }

  lemma {:induction false} ArgsStep(g: Gen, args: seq<Operand>, k: nat)
    requires QueueCovered(g.slots, args)
    requires ArgsToRegs(g, args, k).Ok?
    ensures Step(g, ArgsToRegs(g, args, k).value)
    decreases |args| - k, 1
  {
    if k >= |args| || k >= 4 {
      StepRefl(g);
    } else {
      ArgsStepCons(g, args, k);
    }
  }

  /** The loads from the `k`-th on, when there is a `k`-th. */
  lemma {:induction false} ArgsStepCons(g: Gen, args: seq<Operand>, k: nat)
    requires QueueCovered(g.slots, args)
    requires k < |args| && k < 4 && ArgsToRegs(g, args, k).Ok?
    ensures Step(g, ArgsToRegs(g, args, k).value)
    decreases |args| - k, 0
  {
    ArgsToRegsCons(g, args, k);
    var g1 := EmitOperand(g, args[k], ArgReg(k)).value;
    ArgsStep(g1, args, k + 1);
    StepThen(g, g1, ArgsToRegs(g1, args, k + 1), ArgsToRegs(g, args, k));
  }

  lemma ArgStep(g: Gen, args: seq<Operand>)
    requires QueueCovered(g.slots, args)
    requires ArgToA0(g, args).Ok?
    ensures Step(g, ArgToA0(g, args).value)
  {
    if |args| == 0 {
      AppendStep(g, [Li(A0, 0)]);
    } else {
      OperandStep(g, args[0], A0);
    }
  }

  lemma PopCovered(slots: map<string, int>, q: seq<Operand>, n: int)
    requires QueueCovered(slots, q)
    ensures QueueCovered(slots, PopArgs(q, n)) && QueueCovered(slots, CallArgs(q, n))
  {
    var p := PopArgs(q, n);
    var a := CallArgs(q, n);
    assert p + a == q;
    forall k | 0 <= k < |p| ensures Covered(slots, p[k]) {
      assert p[k] == q[k];
    }
    forall k | 0 <= k < |a| ensures Covered(slots, a[k]) {
      assert a[k] == q[|p| + k];
    }
  }

  /** A system-call printer: its argument into `$a0`, the service number,
      `syscall`. */
  lemma PrinterStep(g: Gen, args: seq<Operand>, service: int)
    requires QueueCovered(g.slots, args) && ArgToA0(g, args).Ok?
    ensures Step(g, Append(ArgToA0(g, args).value, [Li(V0, service), Syscall]))
  {
    ArgStep(g, args);
    var g2 := ArgToA0(g, args).value;
    AppendStep(g2, [Li(V0, service), Syscall]);
    StepTrans(g, g2, Append(g2, [Li(V0, service), Syscall]));
  }

  /** A call to a user function: arguments, `jal`, and the result stored. */
  lemma JalStep(g: Gen, args: seq<Operand>, callee: string, r: Operand)
    requires QueueCovered(g.slots, args) && ArgsToRegs(g, args, 0).Ok?
    requires r.Some? ==> r.value in g.slots
    ensures var g3 := Append(ArgsToRegs(g, args, 0).value, [Jal(callee)]);
      && (r.Some? ==> EmitStore(g3, V0, r).Ok? && Step(g, EmitStore(g3, V0, r).value))
      && (r.None? ==> Step(g, g3))
  {
    ArgsStep(g, args, 0);
    var g2 := ArgsToRegs(g, args, 0).value;
    var g3 := Append(g2, [Jal(callee)]);
    AppendStep(g2, [Jal(callee)]);
    StepTrans(g, g2, g3);
    if r.Some? {
      StoreStep(g3, V0, r);
      StepTrans(g, g3, EmitStore(g3, V0, r).value);
    }
  }

  /** A CALL takes its arguments off the queue and otherwise grows the text
      like any other instruction. */
  lemma CallStep(g: Gen, i: Instr)
    requires i.op == CALL && Prepared(g.slots, i) && QueueCovered(g.slots, g.queue)
    requires EmitCall(g, i).Ok?
    ensures Step(g.(queue := PopArgs(g.queue, CallCount(i.b))), EmitCall(g, i).value)
  {
    var n := CallCount(i.b);
    var args := CallArgs(g.queue, n);
    var g1 := g.(queue := PopArgs(g.queue, n));
    PopCovered(g.slots, g.queue, n);
    var callee := i.a.value;
    if callee == "printInt" || callee == "print_int" {
      PrinterStep(g1, args, 1);
    } else if callee == "printChar" || callee == "print_char" {
      PrinterStep(g1, args, 11);
    } else if callee == "printString" || callee == "print_str" {
      PrinterStep(g1, args, 4);
    } else if callee == "println" || callee == "nl" {
      AppendStep(g1, [Li(A0, 10), Li(V0, 11), Syscall]);
    } else {
      assert i.r in ScanOperands(i);
      JalStep(g1, args, callee, i.r);
    }
  }

  /** The labels one instruction defines in the listing: a LABEL its own
      name, the null label only the first time in a function. */
  function LabelDefs(nullDone: bool, i: Instr): seq<string> {
    if i.op != LABEL then []
    else if i.a.Some? then [i.a.value]
    else if nullDone then []
    else [NULL_LABEL]
  }

  /** The full effect of one translated instruction. */
  ghost predicate InstrEffect(g: Gen, i: Instr, g': Gen) {
    && Grows(g, g')
    && Defs(g'.text[|g.text|..]) == LabelDefs(g.nullDone, i)
    && g'.queue == BackendQueue(g.queue, i)
    && g'.nullDone == (g.nullDone || (i.op == LABEL && i.a.None?))
  }

  lemma LabelStep(g: Gen, l: Operand)
    ensures InstrEffect(g, Instr(LABEL, l, None, None), EmitLabel(g, l))
  {
    var i := Instr(LABEL, l, None, None);
    var g' := EmitLabel(g, l);
    var line := g'.text[|g.text|..];
    assert |line| == 1;
    assert Defs(line) == Defs(line[..0]) + (if line[0].LabelAt? then [line[0].name] else []);
    assert line[..0] == [];
  }

  /** An instruction other than LABEL, PARAM and CALL has the effect of a step. */
  lemma StepEffect(g: Gen, i: Instr, g': Gen)
    requires i.op != LABEL && i.op != PARAM && i.op != CALL
    requires Step(g, g')
    ensures InstrEffect(g, i, g') && g'.queue == g.queue
  {
  }

  lemma ParamEffect(g: Gen, i: Instr, g': Gen)
    requires i.op == PARAM && Prepared(g.slots, i) && QueueCovered(g.slots, g.queue)
    requires g' == g.(queue := g.queue + [i.a])
    ensures InstrEffect(g, i, g') && QueueCovered(g.slots, g'.queue)
  {
    assert i.a in ScanOperands(i);
    assert g'.text[|g.text|..] == [];
    forall k | 0 <= k < |g'.queue| ensures Covered(g.slots, g'.queue[k]) {
      if k < |g.queue| {
        assert g'.queue[k] == g.queue[k];
      }
    }
  }

  lemma CallEffect(g: Gen, i: Instr)
    requires i.op == CALL && Prepared(g.slots, i) && QueueCovered(g.slots, g.queue)
    requires EmitCall(g, i).Ok?
    ensures InstrEffect(g, i, EmitCall(g, i).value)
    ensures QueueCovered(g.slots, EmitCall(g, i).value.queue)
  {
    CallStep(g, i);
    PopCovered(g.slots, g.queue, CallCount(i.b));
  }

  /** An instruction other than LABEL, PARAM and CALL, translated from
      covered operands with no string literal handed to `emitLoad`, is a
      step. */
  lemma PlainInstrStep(g: Gen, i: Instr, g': Gen)
    requires i.op != LABEL && i.op != PARAM && i.op != CALL
    requires Prepared(g.slots, i) && NoStringLoad(i)
    requires EmitInstr(g, i) == Ok(g')
    ensures Step(g, g')
  {
    match i.op
    case MOV => MovStep(g, i);
    case NOT => NotStep(g, i);
    case LOAD => LoadMemStep(g, i);
    case STORE => StoreMemStep(g, i);
    case IFZ =>
      assert i.a in ScanOperands(i) && i.a in LoadOperands(i);
      IfzStep(g, i.a, Canon(i.b));
    case GOTO => AppendStep(g, [J(Canon(i.a))]);
    case RET => RetStep(g, i);
    case _ => BinaryStep(g, i);
  }

  /** Every instruction, translated from covered operands with no string
      literal handed to `emitLoad`, has the effect InstrEffect describes. */
  lemma InstrStep(g: Gen, i: Instr, g': Gen)
    requires Prepared(g.slots, i) && NoStringLoad(i) && QueueCovered(g.slots, g.queue)
    requires EmitInstr(g, i) == Ok(g')
    ensures InstrEffect(g, i, g')
    ensures QueueCovered(g.slots, g'.queue)
  {
    if i.op == LABEL {
      LabelStep(g, i.a);
      assert LabelDefs(g.nullDone, i) == LabelDefs(g.nullDone, Instr(LABEL, i.a, None, None));
    } else if i.op == PARAM {
      ParamEffect(g, i, g');
    } else if i.op == CALL {
      CallEffect(g, i);
    } else {
      PlainInstrStep(g, i, g');
      StepEffect(g, i, g');
    }
  }

  // ---------------------------------------------------------------------
  // A run of instructions
  // ---------------------------------------------------------------------

  /** Whether the null label was defined after `c`, starting from `d`. */
  function NullAfter(d: bool, c: seq<Instr>): bool {
    if |c| == 0 then d
    else NullAfter(d, c[..|c| - 1]) || (c[|c| - 1].op == LABEL && c[|c| - 1].a.None?)
  }

  /** The labels `c` defines in the listing, starting from `d`. */
  function CodeDefs(d: bool, c: seq<Instr>): seq<string> {
    if |c| == 0 then []
    else CodeDefs(d, c[..|c| - 1]) + LabelDefs(NullAfter(d, c[..|c| - 1]), c[|c| - 1])
  }

  function BackendQueueAfter(q: seq<Operand>, c: seq<Instr>): seq<Operand> {
    if |c| == 0 then q else BackendQueue(BackendQueueAfter(q, c[..|c| - 1]), c[|c| - 1])
  }

  lemma GrowsTrans(g1: Gen, g2: Gen, g3: Gen)
    requires Grows(g1, g2) && Grows(g2, g3)
    ensures Grows(g1, g3)
    ensures g3.text[|g1.text|..] == g2.text[|g1.text|..] + g3.text[|g2.text|..]
  {
    var a := g2.text[|g1.text|..];
    var b := g3.text[|g2.text|..];
    assert g3.text[|g1.text|..] == a + b;
    InSlotsAppend(a, b, g1.slots);
  }

  /** Translating a run of prepared instructions grows the text through the
      existing slots only; its labels, null-label flag and queue evolve
      instruction by instruction. */
  lemma {:induction false} CodeStep(g: Gen, c: seq<Instr>, g': Gen)
    requires forall k :: 0 <= k < |c| ==> Prepared(g.slots, c[k]) && NoStringLoad(c[k])
    requires QueueCovered(g.slots, g.queue)
    requires EmitCode(g, c) == Ok(g')
    ensures Grows(g, g')
    ensures Defs(g'.text[|g.text|..]) == CodeDefs(g.nullDone, c)
    ensures g'.nullDone == NullAfter(g.nullDone, c)
    ensures g'.queue == BackendQueueAfter(g.queue, c)
    ensures QueueCovered(g.slots, g'.queue)
    decreases |c|
  {
    if |c| == 0 {
      assert g.text[|g.text|..] == [];
    } else {
      var init := c[..|c| - 1];
      var i := c[|c| - 1];
      var g1 := EmitCode(g, init).value;
      CodeStep(g, init, g1);
      assert Prepared(g1.slots, i) && NoStringLoad(i);
      InstrStep(g1, i, g');
      GrowsTrans(g, g1, g');
      DefsAppend(g1.text[|g.text|..], g'.text[|g1.text|..]);
    }
  }

  /** The first four parameters stored into their slots. */
  lemma {:induction false} ParamsStep(g: Gen, ps: seq<string>, k: nat)
    requires forall j :: k <= j < |ps| ==> ps[j] in g.slots
    ensures StoreParams(g, ps, k).Ok? && Step(g, StoreParams(g, ps, k).value)
    decreases |ps| - k
  {
    if k >= |ps| || k >= 4 {
      assert g.text[|g.text|..] == [];
    } else {
      StoreStep(g, ArgReg(k), Some(ps[k]));
      var g1 := EmitStore(g, ArgReg(k), Some(ps[k])).value;
      ParamsStep(g1, ps, k + 1);
      StepTrans(g, g1, StoreParams(g1, ps, k + 1).value);
    }
  }

  // ---------------------------------------------------------------------
  // A whole function
  // ---------------------------------------------------------------------

  /** Parameters are names, and so is every result the backend stores: true
      of what the TAC generator emits, since its results are variables and
      temporaries. */
  predicate WellNamed(f: Function) {
    && (forall k :: 0 <= k < |f.params| ==> Slotted(Some(f.params[k])))
    && (forall k :: 0 <= k < |f.code| ==>
          (StoresResult(f.code[k].op) && f.code[k].r.Some? ==> Slotted(f.code[k].r)))
  }

  /** No instruction of the function hands a string literal to `emitLoad`. */
  predicate NoStringLoads(f: Function) {
    forall k :: 0 <= k < |f.code| ==> NoStringLoad(f.code[k])
  }

  lemma {:induction false} GatherHas<T>(c: seq<Instr>, k: nat, f: Instr -> seq<T>, x: T)
    requires k < |c| && x in f(c[k])
    ensures x in Gather(c, f)
    decreases |c|
  {
    if k < |c| - 1 {
      assert c[..|c| - 1][k] == c[k];
      GatherHas(c[..|c| - 1], k, f, x);
    }
  }

  /** With the pre-scan's slots every instruction is prepared. */
  lemma CodePrepared(f: Function, slots: map<string, int>)
    requires SlotsAre(slots, ScanNames(f)) && WellNamed(f)
    ensures forall k :: 0 <= k < |f.code| ==> Prepared(slots, f.code[k])
  {
    ScanNamesSpec(f);
    forall k, o | 0 <= k < |f.code| && o in ScanOperands(f.code[k])
      ensures Covered(slots, o)
    {
      if Slotted(o) {
        var all := Gather(f.code, ScanOperands);
        GatherHas(f.code, k, ScanOperands, o);
        var j :| 0 <= j < |all| && all[j] == o;
        assert Names(all, o.value);
      }
    }
  }

  lemma ParamsSlotted(f: Function, slots: map<string, int>)
    requires SlotsAre(slots, ScanNames(f)) && WellNamed(f)
    ensures forall j :: 0 <= j < |f.params| ==> f.params[j] in slots
  {
    ScanNamesSpec(f);
    forall j | 0 <= j < |f.params|
      ensures f.params[j] in slots
    {
      assert AsOperands(f.params)[j] == Some(f.params[j]);
      assert Names(AsOperands(f.params), f.params[j]);
    }
  }

  /** Every slot is a word below `$fp`, within the first `|names|` words. */
  lemma SlotRange(slots: map<string, int>, names: seq<string>, v: int)
    requires SlotsAre(slots, names) && v in slots.Values
    ensures -4 * |names| <= v <= -4 && v % 4 == 0
  {
    var x :| x in slots && slots[x] == v;
    var j :| 0 <= j < |names| && names[j] == x;
  }

  /** The function header and prologue define the function's label and touch
      nothing through `$fp`. */
  lemma HeaderGrows(g: Gen, header: seq<Asm>, name: string)
    requires header == (if name == "main" then [Globl("main")] else []) + [LabelAt(name)] + Prologue(g.frame)
    ensures Grows(g, Append(g, header))
    ensures Defs(header) == [name]
  {
    var pre := if name == "main" then [Globl("main")] else [];
    assert header == pre + [LabelAt(name)] + Prologue(g.frame);
    DefsAppend(pre + [LabelAt(name)], Prologue(g.frame));
    DefsAppend(pre, [LabelAt(name)]);
    NoDefs(pre);
    NoDefs(Prologue(g.frame));
    assert Defs([LabelAt(name)]) == Defs([LabelAt(name)][..0]) + [name];
    assert Append(g, header).text[|g.text|..] == header;
  }

  /** The pre-scan's slots with the frame sized for them. */
  lemma Prescan(g: Gen, f: Function) returns (g1: Gen)
    requires WellNamed(f)
    requires 4 * |ScanNames(f)| + 8 <= Int32.MAX - 15
    ensures g1 == AllocAll(Reset(g), ScanNames(f)).(frame := FrameBytes(|AllocAll(Reset(g), ScanNames(f)).slots|))
    ensures SlotsAre(g1.slots, ScanNames(f)) && g1.frame == FrameBytes(|ScanNames(f)|)
    ensures FrameBytes(|ScanNames(f)|) - 4 * |ScanNames(f)| >= 8
    ensures g1.text == g.text && g1.data == g.data && g1.queue == [] && !g1.nullDone
    ensures g1.next == -4 * (|ScanNames(f)| + 1)
    ensures PoolInv(g) ==> PoolInv(g1)
    ensures forall j :: 0 <= j < |f.params| ==> f.params[j] in g1.slots
    ensures forall k :: 0 <= k < |f.code| ==> Prepared(g1.slots, f.code[k])
  {
    var names := ScanNames(f);
    ScanNamesSpec(f);
    AllocAllSpec(Reset(g), names);
    var a := AllocAll(Reset(g), names);
    g1 := a.(frame := FrameBytes(|a.slots|));
    FrameLayout(|names|);
    ParamsSlotted(f, g1.slots);
    CodePrepared(f, g1.slots);
  }

  /** The state in which `emitFunction` starts on the code: pre-scan slots,
      frame sized, header and prologue written, parameters stored. */
  lemma BodyStart(g: Gen, f: Function) returns (g3: Gen)
    requires WellNamed(f)
    requires 4 * |ScanNames(f)| + 8 <= Int32.MAX - 15
    ensures EmitBody(g, f) == EmitCode(g3, f.code)
    ensures SlotsAre(g3.slots, ScanNames(f)) && g3.frame == FrameBytes(|ScanNames(f)|)
    ensures FrameBytes(|ScanNames(f)|) - 4 * |ScanNames(f)| >= 8
    ensures g.text <= g3.text && g.data <= g3.data && InSlots(g3.text[|g.text|..], g3.slots)
    ensures Defs(g3.text[|g.text|..]) == [f.name]
    ensures g3.queue == [] && !g3.nullDone && g3.next == -4 * (|ScanNames(f)| + 1)
    ensures forall k :: 0 <= k < |f.code| ==> Prepared(g3.slots, f.code[k])
    ensures PoolInv(g) ==> PoolInv(g3)
  {
    var g1 := Prescan(g, f);
    g3 := HeaderAndParams(g1, f);
  }

  /** Header, prologue and parameter stores, from the pre-scanned state. */
  lemma HeaderAndParams(g1: Gen, f: Function) returns (g3: Gen)
    requires forall j :: 0 <= j < |f.params| ==> f.params[j] in g1.slots
    ensures var header := (if f.name == "main" then [Globl("main")] else []) + [LabelAt(f.name)];
      StoreParams(Append(g1, header + Prologue(g1.frame)), f.params, 0) == Ok(g3)
    ensures g1.text <= g3.text && g1.data <= g3.data && InSlots(g3.text[|g1.text|..], g1.slots)
    ensures Defs(g3.text[|g1.text|..]) == [f.name]
    ensures g3.slots == g1.slots && g3.next == g1.next && g3.frame == g1.frame
    ensures g3.queue == g1.queue && g3.nullDone == g1.nullDone
    ensures PoolInv(g1) ==> PoolInv(g3)
  {
    var header := (if f.name == "main" then [Globl("main")] else []) + [LabelAt(f.name)] + Prologue(g1.frame);
    var g2 := Append(g1, header);
    HeaderGrows(g1, header, f.name);
    ParamsStep(g2, f.params, 0);
    g3 := StoreParams(g2, f.params, 0).value;
    TextChain(g1.text, g2.text, g3.text, g1.slots);
  }

  lemma TextChain(t1: seq<Asm>, t2: seq<Asm>, t3: seq<Asm>, slots: map<string, int>)
    requires t1 <= t2 <= t3
    requires InSlots(t2[|t1|..], slots) && InSlots(t3[|t2|..], slots)
    ensures InSlots(t3[|t1|..], slots)
    ensures Defs(t3[|t1|..]) == Defs(t2[|t1|..]) + Defs(t3[|t2|..])
  {
    assert t3[|t1|..] == t2[|t1|..] + t3[|t2|..];
    InSlotsAppend(t2[|t1|..], t3[|t2|..], slots);
    DefsAppend(t2[|t1|..], t3[|t2|..]);
  }

  /** Every `$fp` access of `code` is to a word between the two saved
      registers at the bottom of a `frame`-byte frame and its top. */
  predicate InFrame(code: seq<Asm>, frame: int) {
    forall k :: 0 <= k < |code| && FpOff(code[k]).Some? ==>
      8 - frame <= FpOff(code[k]).value <= -4 && FpOff(code[k]).value % 4 == 0
  }

  lemma SlotsInFrame(code: seq<Asm>, slots: map<string, int>, names: seq<string>, frame: int)
    requires InSlots(code, slots) && SlotsAre(slots, names) && frame - 4 * |names| >= 8
    ensures InFrame(code, frame)
  {
    forall k | 0 <= k < |code| && FpOff(code[k]).Some?
      ensures 8 - frame <= FpOff(code[k]).value <= -4 && FpOff(code[k]).value % 4 == 0
    {
      SlotRange(slots, names, FpOff(code[k]).value);
    }
  }

  /** Frame safety of a translated function: no slot is added after the
      frame is sized, the slots are the pre-scan's, and every `$fp` access in
      the function's text lands on a slot word between the saved `$ra`/`$fp`
      pair and the top of the frame. The function defines its own label and
      then the labels of its code, and the queue evolves as the backend keeps
      it. */
  lemma FrameSafe(g: Gen, f: Function, g': Gen)
    requires EmitBody(g, f) == Ok(g') && WellNamed(f) && NoStringLoads(f)
    requires 4 * |ScanNames(f)| + 8 <= Int32.MAX - 15
    ensures g.text <= g'.text && g.data <= g'.data
    ensures SlotsAre(g'.slots, ScanNames(f))
    ensures g'.frame == FrameBytes(|ScanNames(f)|)
    ensures InSlots(g'.text[|g.text|..], g'.slots)
    ensures InFrame(g'.text[|g.text|..], g'.frame)
    ensures Defs(g'.text[|g.text|..]) == [f.name] + CodeDefs(false, f.code)
    ensures g'.queue == BackendQueueAfter([], f.code)
    ensures PoolInv(g) ==> PoolInv(g')
  {
    var g3 := BodyStart(g, f);
    CodeStep(g3, f.code, g');
    TextChain(g.text, g3.text, g'.text, g3.slots);
    SlotsInFrame(g'.text[|g.text|..], g'.slots, ScanNames(f), g'.frame);
  }
}
