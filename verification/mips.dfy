/** The part of the MIPS32 instruction set, as the SPIM simulator accepts it,
    that the backend emits: typed lines of a listing, and the meaning of the
    straight-line part (register, memory and HI/LO effects). Control transfer
    and system calls have no meaning here; a run stops at them. */
module Mips {
  import opened Common
  import Int32

  datatype Reg = Zero | V0 | A0 | A1 | A2 | A3 | T0 | T1 | T2 | SP | FP | RA

  /** Three-register operations; `mul`, `seq` and `sne` are SPIM
      pseudo-instructions. */
  datatype Alu = ADDU | SUBU | MUL | SLT | SEQ | SNE | AND | OR

  /** One line of the `.text` segment. `Lw`/`Sw` address `off(base)`;
      `Beqz(r, l)` is `beq r, $zero, l`. */
  datatype Asm =
    | Li(rd: Reg, imm: int)
    | La(rd: Reg, sym: string)
    | Lw(rd: Reg, off: int, base: Reg)
    | Sw(rs: Reg, off: int, base: Reg)
    | Alu3(op: Alu, rd: Reg, rs: Reg, rt: Reg)
    | Xori(rd: Reg, rs: Reg, imm: int)
    | Addiu(rd: Reg, rs: Reg, imm: int)
    | Div(rs: Reg, rt: Reg)
    | Mflo(rd: Reg)
    | Mfhi(rd: Reg)
    | Beqz(rs: Reg, target: string)
    | J(target: string)
    | Jal(target: string)
    | Jr(rs: Reg)
    | Syscall
    | LabelAt(name: string)
    | Globl(name: string)
    | Comment(text: string)
    | TextSegment
    | Blank

  /** One line of the `.data` segment. */
  datatype Data =
    | DataSegment
    | Align2
    | DataLabel(name: string)
    | Space(bytes: int)
    | Asciiz(name: string, body: string)

  /** Registers (32-bit words), word memory by byte address, and HI/LO. */
  datatype Machine = Machine(regs: map<Reg, int>, mem: map<int, int>, hi: int, lo: int)

  /** A register's value; `$zero` always reads 0. */
  function Get(m: Machine, r: Reg): (v: int)
    ensures Int32.InRange(v)
    ensures r == Zero ==> v == 0
  {
    if r == Zero then 0 else if r in m.regs then Int32.Wrap(m.regs[r]) else 0
  }

  /** Writing `$zero` has no effect; every write keeps 32 bits. */
  function Set(m: Machine, r: Reg, v: int): (m': Machine)
    ensures Get(m', r) == if r == Zero then 0 else Int32.Wrap(v)
    ensures forall q :: q != r ==> Get(m', q) == Get(m, q)
    ensures m'.mem == m.mem && m'.hi == m.hi && m'.lo == m.lo
  {
    if r == Zero then m else m.(regs := m.regs[r := Int32.Wrap(v)])
  }

  function Load(m: Machine, addr: int): int {
    if addr in m.mem then Int32.Wrap(m.mem[addr]) else 0
  }

  /** A word's bit pattern, and the signed value of a bit pattern. */
  function Bits(x: int): bv32 {
    (x % Int32.MODULUS) as bv32
  }

  function Signed(b: bv32): (x: int)
    ensures Int32.InRange(x)
  {
    if b as int > Int32.MAX then b as int - Int32.MODULUS else b as int
  }

  function AluValue(op: Alu, x: int, y: int): int {
    match op
    case ADDU => Int32.Wrap(x + y)
    case SUBU => Int32.Wrap(x - y)
    case MUL => Int32.Wrap(x * y)
    case SLT => if x < y then 1 else 0
    case SEQ => if x == y then 1 else 0
    case SNE => if x != y then 1 else 0
    case AND => Signed(Bits(x) & Bits(y))
    case OR => Signed(Bits(x) | Bits(y))
  }

  /** The effect of one line; `None` where the line transfers control, where
      a label has no address, or where the architecture leaves the result
      unpredictable (`div` by zero or of the most negative word by -1). */
  function Exec(m: Machine, a: Asm, labels: map<string, int>): Option<Machine> {
    match a
    case Li(rd, imm) => Some(Set(m, rd, imm))
    case La(rd, l) => if l in labels then Some(Set(m, rd, labels[l])) else None
    case Lw(rd, off, base) => Some(Set(m, rd, Load(m, Get(m, base) + off)))
    case Sw(rs, off, base) => Some(m.(mem := m.mem[Get(m, base) + off := Get(m, rs)]))
    case Alu3(op, rd, rs, rt) => Some(Set(m, rd, AluValue(op, Get(m, rs), Get(m, rt))))
    case Xori(rd, rs, imm) => Some(Set(m, rd, Signed(Bits(Get(m, rs)) ^ Bits(imm))))
    case Addiu(rd, rs, imm) => Some(Set(m, rd, Get(m, rs) + imm))
    case Div(rs, rt) =>
      var x := Get(m, rs);
      var y := Get(m, rt);
      if y == 0 || (x == Int32.MIN && y == -1) then None
      else Some(m.(lo := Int32.Div(x, y), hi := Int32.Rem(x, y)))
    case Mflo(rd) => Some(Set(m, rd, m.lo))
    case Mfhi(rd) => Some(Set(m, rd, m.hi))
    case LabelAt(_) => Some(m)
    case Globl(_) => Some(m)
    case Comment(_) => Some(m)
    case TextSegment => Some(m)
    case Blank => Some(m)
    case _ => None
  }

  /** Running straight-line code from the first line to the last. */
  function Run(m: Machine, code: seq<Asm>, labels: map<string, int>): Option<Machine>
    decreases |code|
  {
    if |code| == 0 then Some(m)
    else match Exec(m, code[0], labels)
      case None => None
      case Some(m1) => Run(m1, code[1..], labels)
  }

  lemma {:induction false} RunAppend(m: Machine, a: seq<Asm>, b: seq<Asm>, labels: map<string, int>)
    ensures Run(m, a + b, labels) == match Run(m, a, labels) case None => None case Some(m1) => Run(m1, b, labels)
    decreases |a|
  {
    if |a| > 0 {
      assert (a + b)[0] == a[0];
      assert (a + b)[1..] == a[1..] + b;
      if Exec(m, a[0], labels).Some? {
        RunAppend(Exec(m, a[0], labels).value, a[1..], b, labels);
      }
    } else {
      assert a + b == b;
    }
  }
}
