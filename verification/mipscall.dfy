/** The register convention of a user call: before the `jal`, the first four
    of the call's arguments are loaded, the k-th into `$a(k)`, each read the
    way its operand kind is read; arguments past the fourth are never read. */
module MipsCall {
  import opened Common
  import opened Tac
  import opened TacFacts
  import opened Mips
  import opened MipsGen

  /** The argument registers, in order. */
  const ARG_REGS: seq<Reg> := [A0, A1, A2, A3]

  /** How many of `n` arguments travel in registers. */
  function Passed(n: nat): (m: nat)
    ensures m <= 4 && m <= n && (m == n || m == 4)
  {
    if n < 4 then n else 4
  }

  /** Every slot and every pooled label of `g` is still there, unchanged, in `g'`. */
  predicate Keeps(g: Gen, g': Gen) {
    && (forall x :: x in g.slots ==> x in g'.slots && g'.slots[x] == g.slots[x])
    && (forall x :: x in g.pool ==> x in g'.pool && g'.pool[x] == g.pool[x])
  }

  /** `a` puts operand `src` into `reg` as the state `g` lays memory out: an
      int literal by its value, a char literal by its code, a string literal
      by the address of its pooled label, and a name from its `$fp` slot. */
  predicate LoadsOperand(g: Gen, a: Asm, src: Operand, reg: Reg) {
    && src.Some?
    && (IsIntOperand(src) ==> a == Li(reg, LitValue(src.value)))
    && (!IsIntOperand(src) && IsCharLit(src) ==> a == Li(reg, CharCode(src.value)))
    && (!IsIntOperand(src) && !IsCharLit(src) && IsStringLit(src) ==>
          src.value in g.pool && a == La(reg, g.pool[src.value]))
    && (Slotted(src) ==> src.value in g.slots && a == Lw(reg, g.slots[src.value], FP))
  }

  /** Text from position `base` on loads arguments `k` up to `m`, one
      instruction each, argument j into `$a(j)`. */
  predicate LoadsArgs(g: Gen, base: nat, args: seq<Operand>, k: nat, m: nat)
    requires k <= m <= |args| && base + (m - k) <= |g.text|
  {
    forall j :: k <= j < m ==> LoadsOperand(g, g.text[base + (j - k)], args[j], ArgReg(j))
  }

  lemma KeepsTrans(g: Gen, g1: Gen, g2: Gen)
    requires Keeps(g, g1) && Keeps(g1, g2)
    ensures Keeps(g, g2)
  {
  }

  lemma LoadsOperandKept(g: Gen, g': Gen, a: Asm, src: Operand, reg: Reg)
    requires LoadsOperand(g, a, src, reg) && Keeps(g, g')
    ensures LoadsOperand(g', a, src, reg)
  {
  }

  /** One operand load appends one instruction that loads that operand, and
      keeps every slot and pooled label. */
  lemma OperandLoads(g: Gen, src: Operand, reg: Reg)
    requires EmitOperand(g, src, reg).Ok?
    ensures var g' := EmitOperand(g, src, reg).value;
      && |g'.text| == |g.text| + 1 && g.text <= g'.text
      && Keeps(g, g') && LoadsOperand(g', g'.text[|g.text|], src, reg)
  {
  }

  /** The loads from the `k`-th argument on: one instruction per argument
      below the fourth, the j-th loading argument j into `$a(j)`. */
  lemma {:induction false} ArgsLoads(g: Gen, args: seq<Operand>, k: nat)
    requires k <= Passed(|args|) && ArgsToRegs(g, args, k).Ok?
    ensures var g' := ArgsToRegs(g, args, k).value; var m := Passed(|args|);
      && |g'.text| == |g.text| + (m - k) && g.text <= g'.text && Keeps(g, g')
      && LoadsArgs(g', |g.text|, args, k, m)
    decreases |args| - k, 1
  {
    if k < Passed(|args|) {
      ArgsLoadsCons(g, args, k);
    }
  }

  /** The loads from the `k`-th on, when there is a `k`-th. */
  lemma {:induction false} ArgsLoadsCons(g: Gen, args: seq<Operand>, k: nat)
    requires k < Passed(|args|) && ArgsToRegs(g, args, k).Ok?
    ensures var g' := ArgsToRegs(g, args, k).value; var m := Passed(|args|);
      && |g'.text| == |g.text| + (m - k) && g.text <= g'.text && Keeps(g, g')
      && LoadsArgs(g', |g.text|, args, k, m)
    decreases |args| - k, 0
  {
    var g1 := ArgsFirst(g, args, k);
    ArgsLoads(g1, args, k + 1);
    LoadsThen(g, g1, ArgsToRegs(g1, args, k + 1).value, args, k);
  }

  /** The state after the `k`-th load, from which the rest of the loads go on. */
  lemma ArgsFirst(g: Gen, args: seq<Operand>, k: nat) returns (g1: Gen)
    requires k < Passed(|args|) && ArgsToRegs(g, args, k).Ok?
    ensures |g1.text| == |g.text| + 1 && g.text <= g1.text && Keeps(g, g1)
    ensures LoadsOperand(g1, g1.text[|g.text|], args[k], ArgReg(k))
    ensures ArgsToRegs(g1, args, k + 1) == ArgsToRegs(g, args, k)
  {
    ArgsToRegsStep(g, args, k);
    g1 := EmitOperand(g, args[k], ArgReg(k)).value;
    OperandLoads(g, args[k], ArgReg(k));
  }

  /** Gluing the `k`-th load in front of the loads after it. */
  lemma LoadsThen(g: Gen, g1: Gen, g': Gen, args: seq<Operand>, k: nat)
    requires k < Passed(|args|)
    requires |g1.text| == |g.text| + 1 && g.text <= g1.text && Keeps(g, g1)
    requires LoadsOperand(g1, g1.text[|g.text|], args[k], ArgReg(k))
    requires |g'.text| == |g1.text| + (Passed(|args|) - (k + 1)) && g1.text <= g'.text && Keeps(g1, g')
    requires LoadsArgs(g', |g1.text|, args, k + 1, Passed(|args|))
    ensures var m := Passed(|args|);
      && |g'.text| == |g.text| + (m - k) && g.text <= g'.text && Keeps(g, g')
      && LoadsArgs(g', |g.text|, args, k, m)
  {
    KeepsTrans(g, g1, g');
    LoadsOperandKept(g1, g', g1.text[|g.text|], args[k], ArgReg(k));
    assert g'.text[|g.text|] == g1.text[|g.text|];
    forall j | k + 1 <= j < Passed(|args|)
      ensures LoadsOperand(g', g'.text[|g.text| + (j - k)], args[j], ArgReg(j))
    {
      assert |g.text| + (j - k) == |g1.text| + (j - (k + 1));
    }
    assert LoadsArgs(g', |g.text|, args, k, Passed(|args|));
  }

  /** One step of `ArgsToRegs`: the `k`-th load, then the rest from there. */
  lemma ArgsToRegsStep(g: Gen, args: seq<Operand>, k: nat)
    requires k < |args| && k < 4
    ensures var r := EmitOperand(g, args[k], ArgReg(k));
      && (r.Ok? <==> args[k].Some?)
      && (r.Thrown? ==> ArgsToRegs(g, args, k).Thrown?)
      && (r.Ok? ==> ArgsToRegs(g, args, k) == ArgsToRegs(r.value, args, k + 1))
  {
  }

  /** The loads fail exactly when one of the first four arguments is null. */
  lemma {:induction false} ArgsLoadsOk(g: Gen, args: seq<Operand>, k: nat)
    requires k <= Passed(|args|)
    ensures ArgsToRegs(g, args, k).Ok? <==> forall j :: k <= j < Passed(|args|) ==> args[j].Some?
    decreases |args| - k, 1
  {
    if k < Passed(|args|) {
      ArgsLoadsOkCons(g, args, k);
    }
  }

  /** The first of the remaining loads, then the rest. */
  lemma {:induction false} ArgsLoadsOkCons(g: Gen, args: seq<Operand>, k: nat)
    requires k < Passed(|args|)
    ensures ArgsToRegs(g, args, k).Ok? <==> forall j :: k <= j < Passed(|args|) ==> args[j].Some?
    decreases |args| - k, 0
  {
    ArgsToRegsStep(g, args, k);
    var r := EmitOperand(g, args[k], ArgReg(k));
    AllSomeCons(args, k, Passed(|args|));
    if r.Ok? {
      ArgsLoadsOk(r.value, args, k + 1);
    }
  }

  /** Peeling the first index off a range of non-null arguments. */
  lemma AllSomeCons(args: seq<Operand>, k: nat, m: nat)
    requires k < m <= |args|
    ensures (forall j :: k <= j < m ==> args[j].Some?)
        <==> args[k].Some? && forall j :: k + 1 <= j < m ==> args[j].Some?
  {
  }

  /** Arguments past the fourth are never read: the loads of a list equal the
      loads of its first four. */
  lemma {:induction false} ArgsIgnoreRest(g: Gen, args: seq<Operand>, k: nat)
    requires k <= Passed(|args|)
    ensures ArgsToRegs(g, args, k) == ArgsToRegs(g, args[..Passed(|args|)], k)
    decreases |args| - k, 1
  {
    if k < Passed(|args|) {
      ArgsIgnoreRestCons(g, args, k);
    }
  }

  /** The `k`-th argument is the same in both lists. */
  lemma {:induction false} ArgsIgnoreRestCons(g: Gen, args: seq<Operand>, k: nat)
    requires k < Passed(|args|)
    ensures ArgsToRegs(g, args, k) == ArgsToRegs(g, args[..Passed(|args|)], k)
    decreases |args| - k, 0
  {
    var front := args[..Passed(|args|)];
    assert front[k] == args[k];
    ArgsToRegsStep(g, args, k);
    ArgsToRegsStep(g, front, k);
    var r := EmitOperand(g, args[k], ArgReg(k));
    if r.Ok? {
      ArgsIgnoreRest(r.value, args, k + 1);
    }
  }

  /** Storing `$v0` after the call appends one `sw` and keeps every slot
      and pooled label. */
  lemma StoreKeeps(g: Gen, dst: Operand)
    requires dst.Some?
    ensures var g' := EmitStore(g, V0, dst).value;
      && |g'.text| == |g.text| + 1 && g.text <= g'.text && Keeps(g, g')
  {
  }

  /** The argument registers are four distinct registers, `ArgReg` in order. */
  lemma ArgRegsDistinct()
    ensures forall j :: 0 <= j < 4 ==> ArgReg(j) == ARG_REGS[j]
    ensures forall i, j :: 0 <= i < j < 4 ==> ARG_REGS[i] != ARG_REGS[j]
  {
  }

  /** The callees `emitCall` turns into system calls instead of a `jal`. */
  predicate SyscallCallee(f: string) {
    || (f == "printInt" || f == "print_int")
    || (f == "printChar" || f == "print_char")
    || (f == "printString" || f == "print_str")
    || (f == "println" || f == "nl")
  }

  /** A user call, after the queue pop: the register loads, then the `jal`,
      then the store of `$v0` when the call has a result. */
  lemma UserCallStep(g: Gen, i: Instr)
    requires i.a.Some? && !SyscallCallee(i.a.value)
    ensures var g1 := g.(queue := PopArgs(g.queue, CallCount(i.b)));
      var r := ArgsToRegs(g1, CallArgs(g.queue, CallCount(i.b)), 0);
      && (r.Thrown? ==> EmitCall(g, i).Thrown?)
      && (r.Ok? ==> EmitCall(g, i) == if i.r.Some? then EmitStore(Append(r.value, [Jal(i.a.value)]), V0, i.r)
                                      else Ok(Append(r.value, [Jal(i.a.value)])))
  {
  }

  /** A call to a user function: after the queue pop, exactly
      min(4, #arguments) loads, the j-th putting argument j into `ARG_REGS[j]`,
      then the `jal`; it fails exactly when one of the first four arguments
      is null. */
  lemma UserCallArgs(g: Gen, i: Instr)
    requires i.a.Some? && !SyscallCallee(i.a.value)
    ensures var args := CallArgs(g.queue, CallCount(i.b)); var m := Passed(|args|);
      && (EmitCall(g, i).Ok? <==> forall j :: 0 <= j < m ==> args[j].Some?)
      && (EmitCall(g, i).Ok? ==> var g' := EmitCall(g, i).value; var t := g'.text;
            && |t| == |g.text| + m + (if i.r.Some? then 2 else 1) && t[..|g.text|] == g.text
            && t[|g.text| + m] == Jal(i.a.value)
            && forall j :: 0 <= j < m ==>
                 LoadsOperand(g', t[|g.text| + j], args[j], ARG_REGS[j]))
  {
    var n := CallCount(i.b);
    var args := CallArgs(g.queue, n);
    var g1 := g.(queue := PopArgs(g.queue, n));
    var r := ArgsToRegs(g1, args, 0);
    UserCallStep(g, i);
    ArgsLoadsOk(g1, args, 0);
    if r.Ok? {
      ArgsLoads(g1, args, 0);
    }
    CallGlue(g, g1, r, EmitCall(g, i), i.a.value, i.r, args);
  }

  /** The call's text from the loads' facts, whatever the loads were. */
  lemma CallGlue(g: Gen, g1: Gen, r: Outcome<Gen>, e: Outcome<Gen>, callee: string, dst: Operand, args: seq<Operand>)
    requires g1.text == g.text
    requires r.Ok? <==> forall j :: 0 <= j < Passed(|args|) ==> args[j].Some?
    requires r.Thrown? ==> e.Thrown?
    requires r.Ok? ==> var g2 := r.value; var m := Passed(|args|);
      && |g2.text| == |g1.text| + m && g1.text <= g2.text
      && LoadsArgs(g2, |g1.text|, args, 0, m)
    requires r.Ok? ==> e == if dst.Some? then EmitStore(Append(r.value, [Jal(callee)]), V0, dst)
                           else Ok(Append(r.value, [Jal(callee)]))
    ensures var m := Passed(|args|);
      && (e.Ok? <==> forall j :: 0 <= j < m ==> args[j].Some?)
      && (e.Ok? ==> var g' := e.value; var t := g'.text;
            && |t| == |g.text| + m + (if dst.Some? then 2 else 1) && t[..|g.text|] == g.text
            && t[|g.text| + m] == Jal(callee)
            && forall j :: 0 <= j < m ==>
                 LoadsOperand(g', t[|g.text| + j], args[j], ARG_REGS[j]))
  {
    if r.Ok? {
      var g3 := Append(r.value, [Jal(callee)]);
      ArgRegsDistinct();
      forall j | 0 <= j < Passed(|args|)
        ensures LoadsOperand(g3, g3.text[|g1.text| + j], args[j], ArgReg(j))
      {
        assert LoadsOperand(r.value, r.value.text[|g1.text| + (j - 0)], args[j], ArgReg(j));
        LoadsOperandKept(r.value, g3, r.value.text[|g1.text| + j], args[j], ArgReg(j));
      }
      if dst.Some? {
        StoreKeeps(g3, dst);
        CallLoadsKept(g1, g3, e.value, args);
      } else {
        CallLoadsKept(g1, g3, g3, args);
      }
    }
  }

  /** Loads already in the text stay loads of the same operands while the
      text grows and the slots and labels are kept. */
  lemma CallLoadsKept(g1: Gen, g3: Gen, g': Gen, args: seq<Operand>)
    requires var m := Passed(|args|);
      && |g3.text| == |g1.text| + m + 1 && g1.text <= g3.text
      && forall j :: 0 <= j < m ==> LoadsOperand(g3, g3.text[|g1.text| + j], args[j], ArgReg(j))
    requires g3.text <= g'.text && Keeps(g3, g')
    ensures forall j :: 0 <= j < Passed(|args|) ==>
      LoadsOperand(g', g'.text[|g1.text| + j], args[j], ARG_REGS[j])
  {
    ArgRegsDistinct();
    forall j | 0 <= j < Passed(|args|)
      ensures LoadsOperand(g', g'.text[|g1.text| + j], args[j], ARG_REGS[j])
    {
      LoadsOperandKept(g3, g', g3.text[|g1.text| + j], args[j], ArgReg(j));
    }
  }
}
