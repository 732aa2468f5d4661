/** Straight-line runs of the machine: stepping through a listing line by
    line, and what the 16-byte prologue leaves in the frame. */
module MipsRun {
  import opened Common
  import Int32
  import opened Mips

  lemma RunCons(m: Machine, a: Asm, rest: seq<Asm>, labels: map<string, int>)
    requires Exec(m, a, labels).Some?
    ensures Run(m, [a] + rest, labels) == Run(Exec(m, a, labels).value, rest, labels)
  {
    assert ([a] + rest)[0] == a;
    assert ([a] + rest)[1..] == rest;
  }

  lemma RunFour(m: Machine, a0: Asm, a1: Asm, a2: Asm, a3: Asm, m1: Machine, m2: Machine, m3: Machine, m4: Machine,
                labels: map<string, int>)
    requires Exec(m, a0, labels) == Some(m1) && Exec(m1, a1, labels) == Some(m2)
    requires Exec(m2, a2, labels) == Some(m3) && Exec(m3, a3, labels) == Some(m4)
    ensures Run(m, [a0, a1, a2, a3], labels) == Some(m4)
  {
    RunCons(m, a0, [a1, a2, a3], labels);
    RunCons(m1, a1, [a2, a3], labels);
    RunCons(m2, a2, [a3], labels);
    RunCons(m3, a3, [], labels);
    assert [a0] + [a1, a2, a3] == [a0, a1, a2, a3];
    assert [a1] + [a2, a3] == [a1, a2, a3];
    assert [a2] + [a3] == [a2, a3];
    assert [a3] + [] == [a3];
  }

  /** The four lines of a function prologue for a frame of `frame` bytes. */
  function FrameSetup(frame: int): seq<Asm> {
    [Addiu(SP, SP, -frame), Sw(RA, 0, SP), Sw(FP, 4, SP), Addiu(FP, SP, frame)]
  }

  /** After the prologue `$fp` holds the caller's `$sp`, and the caller's
      `$fp` sits in the word at `4 - frame` from the new `$fp`. */
  lemma PrologueSavesFp(m: Machine, frame: int, labels: map<string, int>) returns (m4: Machine)
    requires 0 < frame && Int32.MIN + frame <= Get(m, SP)
    ensures Run(m, FrameSetup(frame), labels) == Some(m4)
    ensures Get(m4, FP) == Get(m, SP)
    ensures Load(m4, Get(m4, FP) + (4 - frame)) == Get(m, FP)
  {
    var m1 := ReserveStep(m, frame, labels);
    var m2 := SaveStep(m1, RA, 0, labels);
    var m3 := SaveStep(m2, FP, 4, labels);
    m4 := FrameStep(m3, frame, labels);
    var saved := Get(m2, SP) + 4;
    assert Load(m3, saved) == Get(m, FP);
    assert Load(m4, saved) == Load(m3, saved);
    assert Get(m4, FP) + (4 - frame) == saved;
    RunFour(m, Addiu(SP, SP, -frame), Sw(RA, 0, SP), Sw(FP, 4, SP), Addiu(FP, SP, frame), m1, m2, m3, m4, labels);
  }

  lemma ReserveStep(m: Machine, frame: int, labels: map<string, int>) returns (m1: Machine)
    requires 0 < frame && Int32.MIN + frame <= Get(m, SP)
    ensures Exec(m, Addiu(SP, SP, -frame), labels) == Some(m1)
    ensures Get(m1, SP) == Get(m, SP) - frame && Get(m1, FP) == Get(m, FP)
  {
    m1 := Set(m, SP, Get(m, SP) - frame);
  }

  lemma SaveStep(m: Machine, r: Reg, off: int, labels: map<string, int>) returns (m1: Machine)
    requires r != SP
    ensures Exec(m, Sw(r, off, SP), labels) == Some(m1)
    ensures Get(m1, SP) == Get(m, SP) && Get(m1, FP) == Get(m, FP)
    ensures Load(m1, Get(m, SP) + off) == Get(m, r)
    ensures forall a :: a != Get(m, SP) + off ==> Load(m1, a) == Load(m, a)
  {
    m1 := m.(mem := m.mem[Get(m, SP) + off := Get(m, r)]);
  }

  lemma FrameStep(m: Machine, frame: int, labels: map<string, int>) returns (m1: Machine)
    requires Int32.MIN <= Get(m, SP) + frame <= Int32.MAX
    ensures Exec(m, Addiu(FP, SP, frame), labels) == Some(m1)
    ensures Get(m1, FP) == Get(m, SP) + frame && forall a :: Load(m1, a) == Load(m, a)
  {
    m1 := Set(m, FP, Get(m, SP) + frame);
  }

  /** Loading the word at `4 - frame` right after the prologue reads the
      caller's `$fp`. */
  lemma LoadSavedFp(m: Machine, frame: int, rd: Reg, labels: map<string, int>) returns (m5: Machine)
    requires 0 < frame && Int32.MIN + frame <= Get(m, SP) && rd != Zero
    ensures Run(m, FrameSetup(frame) + [Lw(rd, 4 - frame, FP)], labels) == Some(m5)
    ensures Get(m5, rd) == Get(m, FP)
  {
    var m4 := PrologueSavesFp(m, frame, labels);
    m5 := LoadAfter(m, FrameSetup(frame), m4, rd, 4 - frame, FP, Get(m, FP), labels);
  }

  /** Loading a word into a register after a run. */
  lemma LoadAfter(m: Machine, code: seq<Asm>, m4: Machine, rd: Reg, off: int, base: Reg, v: int, labels: map<string, int>)
    returns (m5: Machine)
    requires Run(m, code, labels) == Some(m4) && rd != Zero
    requires Load(m4, Get(m4, base) + off) == v
    ensures Run(m, code + [Lw(rd, off, base)], labels) == Some(m5)
    ensures Get(m5, rd) == v
  {
    m5 := Exec(m4, Lw(rd, off, base), labels).value;
    RunThen(m, code, Lw(rd, off, base), m4, labels);
  }

  /** Running one more line after a run. */
  lemma RunThen(m: Machine, code: seq<Asm>, a: Asm, m': Machine, labels: map<string, int>)
    requires Run(m, code, labels) == Some(m') && Exec(m', a, labels).Some?
    ensures Run(m, code + [a], labels) == Exec(m', a, labels)
  {
    RunAppend(m, code, [a], labels);
    RunCons(m', a, [], labels);
    assert [a] + [] == [a];
  }
}
