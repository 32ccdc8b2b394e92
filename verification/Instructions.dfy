/** The simulated processor (machine/mipssim.cc): decoding, what each instruction does, delayed loads,
    and traps that leave the instruction to be started again. */
module Instructions {
  import opened Bitmaps
  import Multipliers
  import opened Sectors
  import opened Translation
  import opened Unaligned
  import opened WordArithmetic
  import opened Wrappers

  type Reg = r: int | 0 <= r < 32

  const R31: Reg := 31
  const HI_REG := 32
  const LO_REG := 33
  const PC_REG := 34
  const NEXT_PC_REG := 35
  const PREV_PC_REG := 36
  const LOAD_REG := 37
  const LOAD_VALUE_REG := 38
  const BAD_VADDR_REG := 39
  const NUM_TOTAL_REGS := 40

  datatype Op =
    | Add | Addi | Addiu | Addu | And | Andi | Beq | Bgez | Bgezal | Bgtz | Blez | Bltz | Bltzal | Bne
    | Div | Divu | J | Jal | Jalr | Jr | Lb | Lbu | Lh | Lhu | Lui | Lw | Lwl | Lwr | Mfhi | Mflo | Mthi | Mtlo
    | Mult | Multu | Nor | Or | Ori | Sb | Sh | Sll | Sllv | Slt | Slti | Sltiu | Sltu | Sra | Srav | Srl | Srlv
    | Sub | Subu | Sw | Swl | Swr | Xor | Xori | Syscall | Unimp | Res

  datatype Instruction = Instruction(op: Op, rs: Reg, rt: Reg, rd: Reg, extra: Word)

  // ---------------------------------------------------------------- decoding

  datatype Format = IFmt | JFmt | RFmt

  /** `opTable`: the opcode field, but for SPECIAL (0) and BCOND (1). */
  function MainOp(code: nat): (Op, Format) {
    match code
    case 2 => (J, JFmt)
    case 3 => (Jal, JFmt)
    case 4 => (Beq, IFmt)
    case 5 => (Bne, IFmt)
    case 6 => (Blez, IFmt)
    case 7 => (Bgtz, IFmt)
    case 8 => (Addi, IFmt)
    case 9 => (Addiu, IFmt)
    case 10 => (Slti, IFmt)
    case 11 => (Sltiu, IFmt)
    case 12 => (Andi, IFmt)
    case 13 => (Ori, IFmt)
    case 14 => (Xori, IFmt)
    case 15 => (Lui, IFmt)
    case 32 => (Lb, IFmt)
    case 33 => (Lh, IFmt)
    case 34 => (Lwl, IFmt)
    case 35 => (Lw, IFmt)
    case 36 => (Lbu, IFmt)
    case 37 => (Lhu, IFmt)
    case 38 => (Lwr, IFmt)
    case 40 => (Sb, IFmt)
    case 41 => (Sh, IFmt)
    case 42 => (Swl, IFmt)
    case 43 => (Sw, IFmt)
    case 46 => (Swr, IFmt)
    case _ => if 16 <= code <= 19 || 48 <= code <= 51 || 56 <= code <= 59 then (Unimp, IFmt) else (Res, IFmt)
  }

  /** `specialTable`: the function field. */
  function SpecialOp(code: nat): Op {
    match code
    case 0 => Sll
    case 2 => Srl
    case 3 => Sra
    case 4 => Sllv
    case 6 => Srlv
    case 7 => Srav
    case 8 => Jr
    case 9 => Jalr
    case 12 => Syscall
    case 13 => Unimp
    case 16 => Mfhi
    case 17 => Mthi
    case 18 => Mflo
    case 19 => Mtlo
    case 24 => Mult
    case 25 => Multu
    case 26 => Div
    case 27 => Divu
    case 32 => Add
    case 33 => Addu
    case 34 => Sub
    case 35 => Subu
    case 36 => And
    case 37 => Or
    case 38 => Xor
    case 39 => Nor
    case 42 => Slt
    case 43 => Sltu
    case _ => Res
  }

  /** The branches on a comparison with zero have their kind in the `rt` field. */
  function BranchOp(rt: nat): Op {
    match rt
    case 0 => Bltz
    case 1 => Bgez
    case 16 => Bltzal
    case 17 => Bgezal
    case _ => Unimp
  }

  function Immediate(u: Address): Word {
    var low := u % 0x1_0000;
    if low < 0x8000 then low else low - 0x1_0000
  }

  function Decode(raw: Word): Instruction {
    var u := Unsigned(raw);
    var rs, rt, rd := u / 0x20_0000 % 32, u / 0x1_0000 % 32, u / 0x800 % 32;
    var code := u / 0x400_0000;
    if code == 0 then Instruction(SpecialOp(u % 64), rs, rt, rd, u / 64 % 32)
    else if code == 1 then Instruction(BranchOp(rt), rs, rt, rd, Immediate(u))
    else
      var (op, format) := MainOp(code);
      Instruction(op, rs, rt, rd, if format == JFmt then u % 0x400_0000 else Immediate(u))
  }

  lemma FieldsR(rs: Reg, rt: Reg, rd: Reg, shamt: Reg, funct: nat)
    requires funct < 64
    ensures var u := rs * 0x20_0000 + rt * 0x1_0000 + rd * 0x800 + shamt * 64 + funct;
      && 0 <= u < 0x400_0000 && u % 64 == funct && u / 64 % 32 == shamt && u / 0x800 % 32 == rd
      && u / 0x1_0000 % 32 == rt && u / 0x20_0000 == rs
  {
    var u := rs * 0x20_0000 + rt * 0x1_0000 + rd * 0x800 + shamt * 64 + funct;
    assert u / 64 == rs * 0x8000 + rt * 0x400 + rd * 32 + shamt;
    assert u / 0x800 == rs * 0x400 + rt * 32 + rd;
    assert u / 0x1_0000 == rs * 32 + rt;
  }

  lemma FieldsI(code: nat, rs: Reg, rt: Reg, low: nat)
    requires code < 64 && low < 0x1_0000
    ensures var u := code * 0x400_0000 + rs * 0x20_0000 + rt * 0x1_0000 + low;
      && 0 <= u < 0x1_0000_0000 && u % 0x1_0000 == low && u / 0x1_0000 % 32 == rt && u / 0x20_0000 % 32 == rs
      && u / 0x400_0000 == code
  {
    var u := code * 0x400_0000 + rs * 0x20_0000 + rt * 0x1_0000 + low;
    assert u / 0x1_0000 == code * 0x400 + rs * 32 + rt;
    assert u / 0x20_0000 == code * 32 + rs;
  }

  /** Decoding finds the operation and each register in its field of a word in register format ... */
  lemma DecodeOfR(rs: Reg, rt: Reg, rd: Reg, shamt: Reg, funct: nat)
    requires funct < 64
    ensures var u := rs * 0x20_0000 + rt * 0x1_0000 + rd * 0x800 + shamt * 64 + funct;
      0 <= u < 0x1_0000_0000 && Decode(Signed(u)) == Instruction(SpecialOp(funct), rs, rt, rd, shamt)
  {
    hide SpecialOp, MainOp, BranchOp, Signed, Unsigned;
    FieldsR(rs, rt, rd, shamt, funct);
    SignedUnsigned(rs * 0x20_0000 + rt * 0x1_0000 + rd * 0x800 + shamt * 64 + funct);
  }

  /** ... the immediate with its sign ... */
  lemma DecodeOfI(code: nat, rs: Reg, rt: Reg, immediate: int)
    requires 1 <= code < 64 && (code == 1 || MainOp(code).1 == IFmt) && -0x8000 <= immediate < 0x8000
    ensures var u := code * 0x400_0000 + rs * 0x20_0000 + rt * 0x1_0000 + immediate % 0x1_0000;
      0 <= u < 0x1_0000_0000 &&
      var i := Decode(Signed(u));
      i.op == (if code == 1 then BranchOp(rt) else MainOp(code).0) && i.rs == rs && i.rt == rt && i.extra == immediate
  {
    hide SpecialOp, MainOp, BranchOp, Signed, Unsigned;
    FieldsI(code, rs, rt, immediate % 0x1_0000);
    SignedUnsigned(code * 0x400_0000 + rs * 0x20_0000 + rt * 0x1_0000 + immediate % 0x1_0000);
  }

  /** ... and the target of a jump. */
  lemma DecodeOfJ(code: nat, target: nat)
    requires 2 <= code < 64 && MainOp(code).1 == JFmt && target < 0x400_0000
    ensures var u := code * 0x400_0000 + target;
      0 <= u < 0x1_0000_0000 && var i := Decode(Signed(u)); i.op == MainOp(code).0 && i.extra == target
  {
    hide SpecialOp, MainOp, BranchOp, Signed, Unsigned;
    var u := code * 0x400_0000 + target;
    assert u / 0x400_0000 == code && u % 0x400_0000 == target;
    SignedUnsigned(u);
  }

  /** The opcodes as an assembler knows them: those of SPECIAL and BCOND are 0 and 1, and 64 is none. */
  function MainCode(op: Op): nat {
    match op
    case Addi => 8
    case Addiu => 9
    case Andi => 12
    case Beq => 4
    case Bgtz => 7
    case Blez => 6
    case Bne => 5
    case J => 2
    case Jal => 3
    case Lb => 32
    case Lbu => 36
    case Lh => 33
    case Lhu => 37
    case Lui => 15
    case Lw => 35
    case Lwl => 34
    case Lwr => 38
    case Ori => 13
    case Sb => 40
    case Sh => 41
    case Slti => 10
    case Sltiu => 11
    case Sw => 43
    case Swl => 42
    case Swr => 46
    case Xori => 14
    case _ => 64
  }

  function SpecialCode(op: Op): nat {
    match op
    case Add => 32
    case Addu => 33
    case And => 36
    case Div => 26
    case Divu => 27
    case Jalr => 9
    case Jr => 8
    case Mfhi => 16
    case Mflo => 18
    case Mthi => 17
    case Mtlo => 19
    case Mult => 24
    case Multu => 25
    case Nor => 39
    case Or => 37
    case Sll => 0
    case Sllv => 4
    case Slt => 42
    case Sltu => 43
    case Sra => 3
    case Srav => 7
    case Srl => 2
    case Srlv => 6
    case Sub => 34
    case Subu => 35
    case Syscall => 12
    case Xor => 38
    case _ => 64
  }

  function BranchCode(op: Op): nat {
    match op
    case Bgez => 1
    case Bgezal => 17
    case Bltz => 0
    case Bltzal => 16
    case _ => 32
  }

  lemma MainOfCode(op: Op)
    ensures MainCode(op) < 64 ==>
              MainOp(MainCode(op)) == (op, if op.J? || op.Jal? then JFmt else IFmt) && 2 <= MainCode(op)
  {
  }

  lemma CodeOfMain(code: nat)
    ensures var op := MainOp(code).0; op.Unimp? || op.Res? || MainCode(op) == code >= 2
  {
    hide MainCode, MainOp;
    if code < 8 {
      CodeOfJump(code);
    } else if code < 16 {
      CodeOfArithmetic(code);
    } else if 32 <= code < 39 {
      CodeOfLoad(code);
    } else if code in {40, 41, 42, 43, 46} {
      CodeOfStore(code);
    } else {
      NoCode(code);
    }
  }

  lemma CodeOfJump(code: nat)
    requires code < 8
    ensures var op := MainOp(code).0; op.Res? || MainCode(op) == code >= 2
  {
  }

  lemma CodeOfArithmetic(code: nat)
    requires 8 <= code < 16
    ensures MainCode(MainOp(code).0) == code
  {
  }

  lemma CodeOfLoad(code: nat)
    requires 32 <= code < 39
    ensures MainCode(MainOp(code).0) == code
  {
  }

  lemma CodeOfStore(code: nat)
    requires code in {40, 41, 42, 43, 46}
    ensures MainCode(MainOp(code).0) == code
  {
  }

  lemma NoCode(code: nat)
    requires 16 <= code < 32 || code == 39 || code in {44, 45} || code >= 47
    ensures MainOp(code).0.Unimp? || MainOp(code).0.Res?
  {
  }

  lemma SpecialOfCode(op: Op)
    ensures SpecialCode(op) < 64 ==> SpecialOp(SpecialCode(op)) == op
  {
  }

  lemma CodeOfSpecial(code: nat)
    ensures var op := SpecialOp(code); op.Unimp? || op.Res? || SpecialCode(op) == code
  {
  }

  /** What an assembler writes down for an operation is decoded to this operation: in register format ... */
  lemma DecodeOfSpecial(op: Op, rs: Reg, rt: Reg, rd: Reg, shamt: Reg)
    requires SpecialCode(op) < 64
    ensures var u := rs * 0x20_0000 + rt * 0x1_0000 + rd * 0x800 + shamt * 64 + SpecialCode(op);
      0 <= u < 0x1_0000_0000 && Decode(Signed(u)) == Instruction(op, rs, rt, rd, shamt)
  {
    hide Decode, Signed, SpecialOp, SpecialCode;
    SpecialOfCode(op);
    DecodeOfR(rs, rt, rd, shamt, SpecialCode(op));
  }

  /** ... in immediate format, the branches with their kind in a field of its own ... */
  lemma DecodeOfImmediate(op: Op, rs: Reg, rt: Reg, immediate: int)
    requires -0x8000 <= immediate < 0x8000
    requires if BranchCode(op) < 32 then rt == BranchCode(op) else MainCode(op) < 64 && !op.J? && !op.Jal?
    ensures var code := if BranchCode(op) < 32 then 1 else MainCode(op);
      var u := code * 0x400_0000 + rs * 0x20_0000 + rt * 0x1_0000 + immediate % 0x1_0000;
      && 0 <= u < 0x1_0000_0000
      && var i := Decode(Signed(u)); i.op == op && i.rs == rs && i.rt == rt && i.extra == immediate
  {
    hide Decode, Signed, MainOp, MainCode;
    MainOfCode(op);
    DecodeOfI(if BranchCode(op) < 32 then 1 else MainCode(op), rs, rt, immediate);
  }

  /** ... and in jump format. */
  lemma DecodeOfJump(op: Op, target: nat)
    requires (op.J? || op.Jal?) && target < 0x400_0000
    ensures var u := MainCode(op) * 0x400_0000 + target;
      0 <= u < 0x1_0000_0000 && var i := Decode(Signed(u)); i.op == op && i.extra == target
  {
    hide Decode, Signed;
    DecodeOfJ(MainCode(op), target);
  }

  /** Every operation but the two that stand for none has one code, in one of the three fields, and nothing
      else is decoded to it. */
  lemma OneCodeEach(raw: Word)
    ensures var op, u := Decode(raw).op, Unsigned(raw);
      op.Unimp? || op.Res?
      || (u / 0x400_0000 == 0 && u % 64 == SpecialCode(op))
      || (u / 0x400_0000 == 1 && u / 0x1_0000 % 32 == BranchCode(op))
      || (u / 0x400_0000 == MainCode(op) && MainCode(op) >= 2)
  {
    hide Unsigned, Immediate, MainOp, MainCode, SpecialOp, SpecialCode;
    var u := Unsigned(raw);
    CodeOfMain(u / 0x400_0000);
    CodeOfSpecial(u % 64);
  }

  // ---------------------------------------------------------------- instructions without memory

  type Dest = r: int | 0 <= r < 34

  /** What an instruction does to the registers, but for the program counters: write one, write HI and
      LO, jump (and link first), or trap. */
  datatype Effect =
    | Write(reg: Dest, value: Word)
    | WriteTwo(hi: Word, lo: Word)
    | Jump(link: Option<Reg>, pc: Word)
    | Raise(exception: Exception)

  /** The address after the delay slot. */
  function Link(next: Word): Word {
    var n: int := next;
    Wrap(n + 4)
  }

  function Branch(next: Word, taken: bool, extra: Word): Effect {
    var n: int := next;
    Jump(None, if taken then Wrap(n + 4 * extra) else Link(next))
  }

  /** A branch that links writes R31 before it looks at its operand. */
  function BranchAndLink(next: Word, rs: Reg, a: Word, negative: bool, extra: Word): Effect {
    var operand := if rs == R31 then Link(next) else a;
    Branch(next, (operand < 0) == negative, extra).(link := Some(R31))
  }

  function JumpTarget(next: Word, extra: Word): Word {
    Signed(Unsigned(Link(next)) / 0x1000_0000 * 0x1000_0000 + Unsigned(extra) % 0x400_0000 * 4)
  }

  function Flag(b: bool): Word { if b then 1 else 0 }

  predicate IsLoad(op: Op) { op.Lb? || op.Lbu? || op.Lh? || op.Lhu? || op.Lw? || op.Lwl? || op.Lwr? }

  predicate IsStore(op: Op) { op.Sb? || op.Sh? || op.Sw? || op.Swl? || op.Swr? }

  function Compute(i: Instruction, r: seq<Word>): Effect
    requires |r| == NUM_TOTAL_REGS && !IsLoad(i.op) && !IsStore(i.op)
  {
    EffectOf(i, r[i.rs], r[i.rt], r[HI_REG], r[LO_REG], r[NEXT_PC_REG])
  }

  /** `a` and `b` are the registers `rs` and `rt`. */
  function EffectOf(i: Instruction, a: Word, b: Word, hi: Word, lo: Word, next: Word): Effect
    requires !IsLoad(i.op) && !IsStore(i.op)
  {
    var low := Unsigned(i.extra) % 0x1_0000;
    match i.op
    case Add => if AddOverflows(a, b) then Raise(OverflowException) else Write(i.rd, Wrap(a + b))
    case Addi => if AddOverflows(a, i.extra) then Raise(OverflowException) else Write(i.rt, Wrap(a + i.extra))
    case Addiu => Write(i.rt, Wrap(a + i.extra))
    case Addu => Write(i.rd, Wrap(a + b))
    case And => Write(i.rd, BitAnd(a, b))
    case Andi => Write(i.rt, BitAnd(a, low))
    case Beq => Branch(next, a == b, i.extra)
    case Bgez => Branch(next, a >= 0, i.extra)
    case Bgezal => BranchAndLink(next, i.rs, a, false, i.extra)
    case Bgtz => Branch(next, a > 0, i.extra)
    case Blez => Branch(next, a <= 0, i.extra)
    case Bltz => Branch(next, a < 0, i.extra)
    case Bltzal => BranchAndLink(next, i.rs, a, true, i.extra)
    case Bne => Branch(next, a != b, i.extra)
    case Div =>
      if b == 0 then WriteTwo(0, 0) else WriteTwo(Wrap(a - b * Quotient(a, b)), Wrap(Quotient(a, b)))
    case Divu =>
      if b == 0 then WriteTwo(0, 0)
      else WriteTwo(Wrap(Unsigned(a) % Unsigned(b)), Wrap(Unsigned(a) / Unsigned(b)))
    case J => Jump(None, JumpTarget(next, i.extra))
    case Jal => Jump(Some(R31), JumpTarget(next, i.extra))
    case Jalr => Jump(Some(i.rd), if i.rs == i.rd then Link(next) else a)
    case Jr => Jump(None, a)
    case Lui => Write(i.rt, ShiftLeft(i.extra, 16))
    case Mfhi => Write(i.rd, hi)
    case Mflo => Write(i.rd, lo)
    case Mthi => Write(HI_REG, a)
    case Mtlo => Write(LO_REG, a)
    case Mult => var p := Multipliers.ProductWords(a, b, true); WriteTwo(p.0, p.1)
    case Multu => var p := Multipliers.ProductWords(a, b, false); WriteTwo(p.0, p.1)
    case Nor => Write(i.rd, BitNot(BitOr(a, b)))
    case Or => Write(i.rd, BitOr(a, b))
    case Ori => Write(i.rt, BitOr(a, low))
    case Sll => Write(i.rd, ShiftLeft(b, Unsigned(i.extra) % 32))
    case Sllv => Write(i.rd, ShiftLeft(b, Unsigned(a) % 32))
    case Slt => Write(i.rd, Flag(a < b))
    case Slti => Write(i.rt, Flag(a < i.extra))
    case Sltiu => Write(i.rt, Flag(Unsigned(a) < Unsigned(i.extra)))
    case Sltu => Write(i.rd, Flag(Unsigned(a) < Unsigned(b)))
    case Sra => Write(i.rd, ShiftRight(b, Unsigned(i.extra) % 32))
    case Srav => Write(i.rd, ShiftRight(b, Unsigned(a) % 32))
    case Srl => Write(i.rd, ShiftRight(b, Unsigned(i.extra) % 32))
    case Srlv => Write(i.rd, ShiftRight(b, Unsigned(a) % 32))
    case Sub => if SubOverflows(a, b) then Raise(OverflowException) else Write(i.rd, Wrap(a - b))
    case Subu => Write(i.rd, Wrap(a - b))
    case Syscall => Raise(SyscallException)
    case Xor => Write(i.rd, BitXor(a, b))
    case Xori => Write(i.rt, BitXor(a, low))
    case _ => Raise(IllegalInstrException)
  }

  lemma MultEffect(i: Instruction, r: seq<Word>)
    requires |r| == NUM_TOTAL_REGS && (i.op.Mult? || i.op.Multu?)
    ensures var p := Multipliers.ProductWords(r[i.rs], r[i.rt], i.op.Mult?); Compute(i, r) == WriteTwo(p.0, p.1)
  {
  }

  // ---------------------------------------------------------------- one step

  datatype Cpu = Cpu(regs: seq<Word>, memory: Memory)

  /** Register 0 is zero, and the pending load goes to a general register. */
  predicate ValidRegs(r: seq<Word>) {
    |r| == NUM_TOTAL_REGS && r[0] == 0 && 0 <= r[LOAD_REG] < 32
  }

  predicate ValidCpu(c: Cpu) {
    ValidRegs(c.regs) && ValidMemory(c.memory)
  }

  datatype Next = Stepped(cpu: Cpu) | Trapped(cpu: Cpu, exception: Exception)

  /** The pending load is done, and another one becomes pending. */
  function DelayedLoad(r: seq<Word>, nextReg: Reg, nextValue: Word): seq<Word>
    requires |r| == NUM_TOTAL_REGS && 0 <= r[LOAD_REG] < 32
  {
    r[r[LOAD_REG] := r[LOAD_VALUE_REG]][LOAD_REG := nextReg][LOAD_VALUE_REG := nextValue][0 := 0]
  }

  /** Into the kernel: with nothing pending. */
  function RaiseException(c: Cpu, exception: Exception, badVAddr: Word): (n: Next)
    requires |c.regs| == NUM_TOTAL_REGS && 0 <= c.regs[LOAD_REG] < 32
    ensures n.Trapped? && n.exception == exception
  {
    Trapped(c.(regs := DelayedLoad(c.regs[BAD_VADDR_REG := badVAddr], 0, 0)), exception)
  }

  function Advanced(r: seq<Word>, pcAfter: Word): seq<Word>
    requires |r| == NUM_TOTAL_REGS
  {
    r[PREV_PC_REG := r[PC_REG]][PC_REG := r[NEXT_PC_REG]][NEXT_PC_REG := pcAfter]
  }

  function Finish(c: Cpu, nextReg: Reg, nextValue: Word, pcAfter: Word): (n: Next)
    requires |c.regs| == NUM_TOTAL_REGS && 0 <= c.regs[LOAD_REG] < 32
    ensures n.Stepped?
  {
    Stepped(c.(regs := Advanced(DelayedLoad(c.regs, nextReg, nextValue), pcAfter)))
  }

  function Applied(c: Cpu, e: Effect): Next
    requires |c.regs| == NUM_TOTAL_REGS && 0 <= c.regs[LOAD_REG] < 32
  {
    match e
    case Write(reg, value) => Finish(c.(regs := c.regs[reg := value]), 0, 0, Link(c.regs[NEXT_PC_REG]))
    case WriteTwo(hi, lo) => Finish(c.(regs := c.regs[HI_REG := hi][LO_REG := lo]), 0, 0, Link(c.regs[NEXT_PC_REG]))
    case Jump(None, pc) => Finish(c, 0, 0, pc)
    case Jump(Some(reg), pc) => Finish(c.(regs := c.regs[reg := Link(c.regs[NEXT_PC_REG])]), 0, 0, pc)
    case Raise(exception) => RaiseException(c, exception, 0)
  }

  /** The address of a load or store. */
  function Target(i: Instruction, r: seq<Word>): Word
    requires |r| == NUM_TOTAL_REGS
  {
    Wrap(r[i.rs] + i.extra)
  }

  /** What a load puts in its register: bytes and halves extended, unaligned words merged with the
      value that the register has or is about to get. */
  function LoadedValue(i: Instruction, r: seq<Word>, at: Address, value: Word): Word
    requires |r| == NUM_TOTAL_REGS
  {
    var u := Unsigned(value);
    var before := if r[LOAD_REG] == i.rt then r[LOAD_VALUE_REG] else r[i.rt];
    match i.op
    case Lb => if u % 0x100 >= 0x80 then u % 0x100 - 0x100 else u % 0x100
    case Lbu => u % 0x100
    case Lh => if u % 0x1_0000 >= 0x8000 then u % 0x1_0000 - 0x1_0000 else u % 0x1_0000
    case Lhu => u % 0x1_0000
    case Lwl => LoadLeftValue(before, value, at % 4)
    case Lwr => LoadRightValue(before, value, at % 4)
    case _ => value
  }

  function SizeOf(op: Op): (size: nat)
    ensures LegalSize(size)
  {
    match op
    case Lb | Lbu | Sb => 1
    case Lh | Lhu | Sh => 2
    case _ => 4
  }

  /** The aligned word around the address for LWL and LWR, and the address itself otherwise. */
  function ReadAddress(i: Instruction, at: Address): Address {
    if i.op.Lwl? || i.op.Lwr? then at - at % 4 else at
  }

  /** The loads of halves and words look at the address themselves. */
  function ExecuteLoad(i: Instruction, c: Cpu): Next
    requires IsLoad(i.op) && ValidCpu(c)
  {
    var at := Unsigned(Target(i, c.regs));
    var from := ReadAddress(i, at);
    if Misaligned(from, SizeOf(i.op)) then RaiseException(c, AddressErrorException, Signed(at))
    else
      match ReadMem(c.memory, from, SizeOf(i.op))
      case ReadFault(exception) => RaiseException(c, exception, Signed(from))
      case Got(value, memory) =>
        Finish(c.(memory := memory), i.rt, LoadedValue(i, c.regs, at, value), Link(c.regs[NEXT_PC_REG]))
  }

  function StoreOf(i: Instruction, c: Cpu, at: Address): WriteResult
    requires IsStore(i.op) && ValidCpu(c)
  {
    match i.op
    case Swl => StoreLeft(c.memory, at, c.regs[i.rt])
    case Swr => StoreRight(c.memory, at, c.regs[i.rt])
    case _ => WriteMem(c.memory, at, SizeOf(i.op), c.regs[i.rt])
  }

  /** A store that traps may have set a use bit. */
  function ExecuteStore(i: Instruction, c: Cpu): Next
    requires IsStore(i.op) && ValidCpu(c)
  {
    var at := Unsigned(Target(i, c.regs));
    var bad := if i.op.Swl? || i.op.Swr? then at - at % 4 else at;
    match StoreOf(i, c, at)
    case WriteFault(exception) => RaiseException(c.(memory := AfterFault(i, c, bad)), exception, Signed(bad))
    case Put(memory) => Finish(c.(memory := memory), 0, 0, Link(c.regs[NEXT_PC_REG]))
  }

  function AfterFault(i: Instruction, c: Cpu, from: Address): Memory
    requires ValidCpu(c)
  {
    if i.op.Swl? || i.op.Swr? then
      match ReadMem(c.memory, from, 4)
      case Got(_, memory) => memory
      case ReadFault(_) => c.memory
    else c.memory
  }

  function Execute(i: Instruction, c: Cpu): Next
    requires ValidCpu(c)
  {
    if IsLoad(i.op) then ExecuteLoad(i, c)
    else if IsStore(i.op) then ExecuteStore(i, c)
    else Applied(c, Compute(i, c.regs))
  }

  /** Machine::OneInstruction, up to the kernel's exception handler. */
  function Step(c: Cpu): Next
    requires ValidCpu(c)
  {
    match ReadMem(c.memory, Unsigned(c.regs[PC_REG]), 4)
    case ReadFault(exception) => RaiseException(c, exception, c.regs[PC_REG])
    case Got(raw, memory) =>
      FetchKeeps(c);
      Execute(Decode(raw), c.(memory := memory))
  }

  lemma FetchKeeps(c: Cpu)
    requires ValidCpu(c) && ReadMem(c.memory, Unsigned(c.regs[PC_REG]), 4).Got?
    ensures ValidCpu(c.(memory := ReadMem(c.memory, Unsigned(c.regs[PC_REG]), 4).memory))
  {
    hide ReadMem;
    ReadKeeps(c.memory, Unsigned(c.regs[PC_REG]));
  }

  // ---------------------------------------------------------------- what every step keeps

  lemma DelayedLoadKeeps(r: seq<Word>, nextReg: Reg, nextValue: Word)
    requires |r| == NUM_TOTAL_REGS && 0 <= r[LOAD_REG] < 32
    ensures var r' := DelayedLoad(r, nextReg, nextValue);
      && ValidRegs(r') && r'[LOAD_REG] == nextReg && r'[LOAD_VALUE_REG] == nextValue
      && (forall g :: 0 <= g < NUM_TOTAL_REGS && g != LOAD_REG && g != LOAD_VALUE_REG ==>
            r'[g] == if g == 0 then 0 else if g == r[LOAD_REG] then r[LOAD_VALUE_REG] else r[g])
  {
  }

  lemma FinishKeeps(c: Cpu, nextReg: Reg, nextValue: Word, pcAfter: Word)
    requires |c.regs| == NUM_TOTAL_REGS && 0 <= c.regs[LOAD_REG] < 32 && ValidMemory(c.memory)
    ensures var c' := Finish(c, nextReg, nextValue, pcAfter).cpu;
      && ValidCpu(c') && c'.memory == c.memory
      && c'.regs[LOAD_REG] == nextReg && c'.regs[LOAD_VALUE_REG] == nextValue
      && c'.regs[PC_REG] == c.regs[NEXT_PC_REG] && c'.regs[NEXT_PC_REG] == pcAfter
      && (forall g :: 0 <= g < 32 ==>
            c'.regs[g] == if g == 0 then 0 else if g == c.regs[LOAD_REG] then c.regs[LOAD_VALUE_REG] else c.regs[g])
  {
    DelayedLoadKeeps(c.regs, nextReg, nextValue);
  }

  /** What a trap may change: the pending load is done, the bad address is noted, and nothing else is
      different, so that the instruction can be started again. */
  ghost predicate Restartable(c: Cpu, c': Cpu) {
    && ValidCpu(c) && ValidCpu(c')
    && c'.memory.bytes == c.memory.bytes && SameFrames(c.memory.mmu, c'.memory.mmu)
    && c'.regs[LOAD_REG] == 0 && c'.regs[LOAD_VALUE_REG] == 0
    && (forall g :: 0 <= g < LOAD_REG ==>
          c'.regs[g] == if g == 0 then 0 else if g == c.regs[LOAD_REG] then c.regs[LOAD_VALUE_REG] else c.regs[g])
  }

  lemma RaiseIsRestartable(c: Cpu, m: Memory, exception: Exception, badVAddr: Word)
    requires ValidCpu(c) && ValidMemory(m) && m.bytes == c.memory.bytes && SameFrames(c.memory.mmu, m.mmu)
    ensures Restartable(c, RaiseException(c.(memory := m), exception, badVAddr).cpu)
  {
    hide ValidMemory;
    DelayedLoadKeeps(c.regs[BAD_VADDR_REG := badVAddr], 0, 0);
  }

  lemma SameFramesItself(mmu: Mmu)
    ensures SameFrames(mmu, mmu)
  {
  }

  lemma LoadTraps(i: Instruction, c: Cpu)
    requires IsLoad(i.op) && ValidCpu(c)
    ensures ExecuteLoad(i, c).Trapped? ==> Restartable(c, ExecuteLoad(i, c).cpu)
  {
    hide Restartable, ReadMem, LoadedValue, Finish;
    SameFramesItself(c.memory.mmu);
    var at := Unsigned(Target(i, c.regs));
    var from := ReadAddress(i, at);
    RaiseIsRestartable(c, c.memory, AddressErrorException, Signed(at));
    match ReadMem(c.memory, from, SizeOf(i.op))
    case ReadFault(exception) => RaiseIsRestartable(c, c.memory, exception, Signed(from));
    case Got(_, _) =>
  }

  lemma AfterFaultKeeps(i: Instruction, c: Cpu, from: Address)
    requires ValidCpu(c)
    ensures var m := AfterFault(i, c, from);
      ValidMemory(m) && m.bytes == c.memory.bytes && SameFrames(c.memory.mmu, m.mmu)
  {
    hide ReadMem, SameFrames;
    SameFramesItself(c.memory.mmu);
    if (i.op.Swl? || i.op.Swr?) && ReadMem(c.memory, from, 4).Got? {
      ReadKeeps(c.memory, from);
    }
  }

  lemma StoreTraps(i: Instruction, c: Cpu)
    requires IsStore(i.op) && ValidCpu(c)
    ensures ExecuteStore(i, c).Trapped? ==> Restartable(c, ExecuteStore(i, c).cpu)
  {
    hide Restartable, StoreOf, Finish, AfterFault, RaiseException;
    var at := Unsigned(Target(i, c.regs));
    var bad := if i.op.Swl? || i.op.Swr? then at - at % 4 else at;
    AfterFaultKeeps(i, c, bad);
    match StoreOf(i, c, at)
    case WriteFault(exception) => RaiseIsRestartable(c, AfterFault(i, c, bad), exception, Signed(bad));
    case Put(_) =>
  }

  lemma EffectTraps(c: Cpu, e: Effect)
    requires ValidCpu(c)
    ensures Applied(c, e).Trapped? ==> Restartable(c, Applied(c, e).cpu)
  {
    hide Restartable, Finish;
    SameFramesItself(c.memory.mmu);
    match e
    case Raise(exception) => RaiseIsRestartable(c, c.memory, exception, 0);
    case _ =>
  }

  lemma ExecuteTraps(i: Instruction, c: Cpu)
    requires ValidCpu(c)
    ensures Execute(i, c).Trapped? ==> Restartable(c, Execute(i, c).cpu)
  {
    hide Restartable, ExecuteLoad, ExecuteStore, Applied, Compute;
    if IsLoad(i.op) {
      LoadTraps(i, c);
    } else if IsStore(i.op) {
      StoreTraps(i, c);
    } else {
      EffectTraps(c, Compute(i, c.regs));
    }
  }

  lemma RestartableThrough(c: Cpu, m: Memory, c': Cpu)
    requires ValidCpu(c) && m.bytes == c.memory.bytes && SameFrames(c.memory.mmu, m.mmu)
    requires Restartable(c.(memory := m), c')
    ensures Restartable(c, c')
  {
    hide FrameOf, ValidMemory, ValidRegs;
    assert forall v: nat :: FrameOf(c'.memory.mmu, v) == FrameOf(m.mmu, v);
  }

  /** Every trap, of whatever instruction and for whatever cause, leaves memory, the program counters
      and the registers as they were, but for completing the load that was pending. */
  lemma TrapsAreRestartable(c: Cpu)
    requires ValidCpu(c) && Step(c).Trapped?
    ensures Restartable(c, Step(c).cpu)
  {
    hide Restartable, ReadMem, Execute, Decode;
    SameFramesItself(c.memory.mmu);
    var pc := Unsigned(c.regs[PC_REG]);
    match ReadMem(c.memory, pc, 4)
    case ReadFault(exception) => RaiseIsRestartable(c, c.memory, exception, c.regs[PC_REG]);
    case Got(raw, m) =>
      ReadKeeps(c.memory, pc);
      FetchKeeps(c);
      ExecuteTraps(Decode(raw), c.(memory := m));
      RestartableThrough(c, m, Step(c).cpu);
  }

  // ---------------------------------------------------------------- program counters

  predicate Jumps(op: Op) {
    op.Beq? || op.Bgez? || op.Bgezal? || op.Bgtz? || op.Blez? || op.Bltz? || op.Bltzal? || op.Bne? || op.J? || op.Jal?
    || op.Jalr? || op.Jr?
  }

  lemma OnlyJumpsJump(i: Instruction, r: seq<Word>)
    requires |r| == NUM_TOTAL_REGS && !IsLoad(i.op) && !IsStore(i.op)
    ensures Compute(i, r).Jump? <==> Jumps(i.op)
  {
    hide Wrap, AddOverflows, SubOverflows, Quotient, Multipliers.ProductWords, ShiftLeft, ShiftRight, Unsigned, Signed;
    hide BitAnd, BitOr, BitXor;
  }

  ghost predicate Follows(r: seq<Word>, r': seq<Word>, jumps: bool) {
    && |r| == |r'| == NUM_TOTAL_REGS
    && r'[PC_REG] == r[NEXT_PC_REG] && r'[PREV_PC_REG] == r[PC_REG]
    && (!jumps ==> r'[NEXT_PC_REG] == Link(r[NEXT_PC_REG]))
  }

  /** Every instruction that completes is followed by the one at NextPC, also after a branch, whose target
      comes only after that; and where no branch is, NextPC moves on by four. */
  lemma DelaySlot(c: Cpu)
    requires ValidCpu(c) && Step(c).Stepped?
    ensures Fetched(c).Got? && Follows(c.regs, Step(c).cpu.regs, Jumps(Decode(Fetched(c).value).op))
  {
    hide ReadMem, Decode, Execute, Jumps, Follows;
    FetchKeeps(c);
    var i, c1 := Decode(Fetched(c).value), c.(memory := Fetched(c).memory);
    assert Step(c) == Execute(i, c1);
    ExecuteCounters(i, c1);
  }

  lemma ExecuteCounters(i: Instruction, c: Cpu)
    requires ValidCpu(c) && Execute(i, c).Stepped?
    ensures Follows(c.regs, Execute(i, c).cpu.regs, Jumps(i.op))
  {
    hide ReadMem, ValidMemory, ExecuteLoad, ExecuteStore, Compute, Finish, StoreOf, LoadedValue, Link, Applied, Target;
    if IsLoad(i.op) {
      LoadGot(i, c);
      var at := Unsigned(Target(i, c.regs));
      var got := ReadMem(c.memory, ReadAddress(i, at), SizeOf(i.op));
      CountersAfter(c.(memory := got.memory), i.rt, LoadedValue(i, c.regs, at, got.value), Link(c.regs[NEXT_PC_REG]));
    } else if IsStore(i.op) {
      StorePut(i, c);
      CountersAfter(c.(memory := StoreOf(i, c, Unsigned(Target(i, c.regs))).memory), 0, 0, Link(c.regs[NEXT_PC_REG]));
    } else {
      OnlyJumpsJump(i, c.regs);
      EffectCounters(c, Compute(i, c.regs));
    }
  }

  lemma CountersAfter(c: Cpu, nextReg: Reg, nextValue: Word, pcAfter: Word)
    requires |c.regs| == NUM_TOTAL_REGS && 0 <= c.regs[LOAD_REG] < 32
    ensures var r := Finish(c, nextReg, nextValue, pcAfter).cpu.regs;
      && |r| == NUM_TOTAL_REGS && r[PC_REG] == c.regs[NEXT_PC_REG] && r[PREV_PC_REG] == c.regs[PC_REG]
      && r[NEXT_PC_REG] == pcAfter
  {
  }

  lemma EffectCounters(c: Cpu, e: Effect)
    requires ValidCpu(c) && Applied(c, e).Stepped?
    ensures var r, next := Applied(c, e).cpu.regs, c.regs[NEXT_PC_REG];
      && |r| == NUM_TOTAL_REGS && r[PC_REG] == next && r[PREV_PC_REG] == c.regs[PC_REG]
      && r[NEXT_PC_REG] == if e.Jump? then e.pc else Link(next)
  {
    hide Finish, ValidMemory;
    var link := Link(c.regs[NEXT_PC_REG]);
    match e
    case Write(reg, value) => CountersAfter(c.(regs := c.regs[reg := value]), 0, 0, link);
    case WriteTwo(hi, lo) => CountersAfter(c.(regs := c.regs[HI_REG := hi][LO_REG := lo]), 0, 0, link);
    case Jump(None, pc) => CountersAfter(c, 0, 0, pc);
    case Jump(Some(reg), pc) => CountersAfter(c.(regs := c.regs[reg := link]), 0, 0, pc);
    case Raise(_) =>
  }

  // ---------------------------------------------------------------- register 0 and pending loads

  /** Register 0 is zero, the pending load has a legal target, and the load that was pending has been
      done, whatever else the instruction wrote to that register. */
  ghost predicate Settled(c: Cpu, c': Cpu) {
    && ValidCpu(c) && ValidCpu(c')
    && (c.regs[LOAD_REG] != 0 ==> c'.regs[c.regs[LOAD_REG]] == c.regs[LOAD_VALUE_REG])
  }

  lemma FinishSettles(c: Cpu, c1: Cpu, nextReg: Reg, nextValue: Word, pcAfter: Word)
    requires ValidCpu(c) && |c1.regs| == NUM_TOTAL_REGS && ValidMemory(c1.memory)
    requires c1.regs[LOAD_REG] == c.regs[LOAD_REG] && c1.regs[LOAD_VALUE_REG] == c.regs[LOAD_VALUE_REG]
    ensures Settled(c, Finish(c1, nextReg, nextValue, pcAfter).cpu)
  {
    hide Finish, ValidMemory;
    FinishKeeps(c1, nextReg, nextValue, pcAfter);
  }

  lemma RestartableSettles(c: Cpu, c': Cpu)
    requires Restartable(c, c')
    ensures Settled(c, c')
  {
    hide ValidMemory, SameFrames;
  }

  lemma EffectSettles(c: Cpu, e: Effect)
    requires ValidCpu(c)
    ensures Settled(c, Applied(c, e).cpu)
  {
    hide Settled, Finish, ValidMemory, RaiseException, Restartable;
    match e
    case Raise(_) => EffectTraps(c, e); RestartableSettles(c, Applied(c, e).cpu);
    case Write(reg, value) => FinishSettles(c, c.(regs := c.regs[reg := value]), 0, 0, Link(c.regs[NEXT_PC_REG]));
    case WriteTwo(hi, lo) => FinishSettles(c, c.(regs := c.regs[HI_REG := hi][LO_REG := lo]), 0, 0,
                                           Link(c.regs[NEXT_PC_REG]));
    case Jump(None, pc) => FinishSettles(c, c, 0, 0, pc);
    case Jump(Some(reg), pc) => FinishSettles(c, c.(regs := c.regs[reg := Link(c.regs[NEXT_PC_REG])]), 0, 0, pc);
  }

  lemma LoadSettles(i: Instruction, c: Cpu)
    requires IsLoad(i.op) && ValidCpu(c)
    ensures Settled(c, ExecuteLoad(i, c).cpu)
  {
    hide Settled, Finish, Restartable, ReadMem, LoadedValue, ValidMemory, RaiseException;
    if ExecuteLoad(i, c).Trapped? {
      LoadTraps(i, c);
      RestartableSettles(c, ExecuteLoad(i, c).cpu);
    } else {
      LoadGot(i, c);
      var from := ReadAddress(i, Unsigned(Target(i, c.regs)));
      var got := ReadMem(c.memory, from, SizeOf(i.op));
      var at := Unsigned(Target(i, c.regs));
      FinishSettles(c, c.(memory := got.memory), i.rt, LoadedValue(i, c.regs, at, got.value),
                    Link(c.regs[NEXT_PC_REG]));
    }
  }

  lemma LoadGot(i: Instruction, c: Cpu)
    requires IsLoad(i.op) && ValidCpu(c) && ExecuteLoad(i, c).Stepped?
    ensures var at := Unsigned(Target(i, c.regs));
      var got := ReadMem(c.memory, ReadAddress(i, at), SizeOf(i.op));
      && got.Got? && ValidMemory(got.memory)
      && ExecuteLoad(i, c) == Finish(c.(memory := got.memory), i.rt, LoadedValue(i, c.regs, at, got.value),
                                     Link(c.regs[NEXT_PC_REG]))
  {
    hide LoadedValue, Finish, Target;
    var from := ReadAddress(i, Unsigned(Target(i, c.regs)));
    if Translate(c.memory.mmu, from, SizeOf(i.op), false).Physical? {
      TranslateKeepsFrames(c.memory.mmu, from, SizeOf(i.op), false);
    }
  }

  lemma StoreSettles(i: Instruction, c: Cpu)
    requires IsStore(i.op) && ValidCpu(c)
    ensures Settled(c, ExecuteStore(i, c).cpu)
  {
    hide Settled, Finish, Restartable, StoreOf, ValidMemory, RaiseException, AfterFault;
    if ExecuteStore(i, c).Trapped? {
      StoreTraps(i, c);
      RestartableSettles(c, ExecuteStore(i, c).cpu);
    } else {
      StorePut(i, c);
      var put := StoreOf(i, c, Unsigned(Target(i, c.regs)));
      FinishSettles(c, c.(memory := put.memory), 0, 0, Link(c.regs[NEXT_PC_REG]));
    }
  }

  lemma StorePut(i: Instruction, c: Cpu)
    requires IsStore(i.op) && ValidCpu(c) && ExecuteStore(i, c).Stepped?
    ensures var put := StoreOf(i, c, Unsigned(Target(i, c.regs)));
      put.Put? && ValidMemory(put.memory) &&
        ExecuteStore(i, c) == Finish(c.(memory := put.memory), 0, 0, Link(c.regs[NEXT_PC_REG]))
  {
    hide Finish, Target, WriteMem, ReadMem, AfterFault;
    var at := Unsigned(Target(i, c.regs));
    var aligned := at - at % 4;
    if (i.op.Swl? || i.op.Swr?) && ReadMem(c.memory, aligned, 4).Got? {
      ReadKeeps(c.memory, aligned);
      var value, m := ReadMem(c.memory, aligned, 4).value, ReadMem(c.memory, aligned, 4).memory;
      WriteKeepsValid(m, aligned, 4, StoreLeftValue(value, c.regs[i.rt], at % 4));
      WriteKeepsValid(m, aligned, 4, StoreRightValue(value, c.regs[i.rt], at % 4));
    } else {
      WriteKeepsValid(c.memory, at, SizeOf(i.op), c.regs[i.rt]);
    }
  }

  lemma WriteKeepsValid(m: Memory, u: Address, size: nat, value: Word)
    requires ValidMemory(m) && LegalSize(size)
    ensures WriteMem(m, u, size, value).Put? ==> ValidMemory(WriteMem(m, u, size, value).memory)
  {
    if Translate(m.mmu, u, size, true).Physical? {
      TranslateKeepsFrames(m.mmu, u, size, true);
    }
  }

  /** After every step register 0 is zero and the pending load has a legal target; and a load is done
      by the end of the next step, whether that one traps or not and whatever it writes. */
  lemma StepsSettle(c: Cpu)
    requires ValidCpu(c)
    ensures Settled(c, Step(c).cpu)
  {
    hide Settled, Restartable, ReadMem, Execute, Decode;
    if Step(c).Trapped? {
      TrapsAreRestartable(c);
      RestartableSettles(c, Step(c).cpu);
    } else {
      FetchKeeps(c);
      var fetched := ReadMem(c.memory, Unsigned(c.regs[PC_REG]), 4);
      ExecuteSettles(Decode(fetched.value), c.(memory := fetched.memory));
      SettledThrough(c, fetched.memory, Step(c).cpu);
    }
  }

  lemma ExecuteSettles(i: Instruction, c: Cpu)
    requires ValidCpu(c)
    ensures Settled(c, Execute(i, c).cpu)
  {
    hide Settled, ExecuteLoad, ExecuteStore, Applied, Compute;
    if IsLoad(i.op) {
      LoadSettles(i, c);
    } else if IsStore(i.op) {
      StoreSettles(i, c);
    } else {
      EffectSettles(c, Compute(i, c.regs));
    }
  }

  lemma SettledThrough(c: Cpu, m: Memory, c': Cpu)
    requires ValidCpu(c) && Settled(c.(memory := m), c')
    ensures Settled(c, c')
  {
    hide ValidMemory;
  }

  // ---------------------------------------------------------------- unaligned words

  /** The instruction that the next step executes, and the memory after fetching it. */
  function Fetched(c: Cpu): ReadResult
    requires ValidCpu(c)
  {
    ReadMem(c.memory, Unsigned(c.regs[PC_REG]), 4)
  }

  predicate Executes(c: Cpu, i: Instruction)
    requires ValidCpu(c)
  {
    Fetched(c).Got? && Decode(Fetched(c).value) == i
  }

  /** One step of a load, its fetch included. */
  lemma LoadStep(c: Cpu, i: Instruction)
    requires ValidCpu(c) && Executes(c, i) && IsLoad(i.op) && Step(c).Stepped?
    ensures var m, at := Fetched(c).memory, Unsigned(Target(i, c.regs));
      && ValidMemory(m) && ReadMem(m, ReadAddress(i, at), SizeOf(i.op)).Got?
      && var got, c' := ReadMem(m, ReadAddress(i, at), SizeOf(i.op)), Step(c).cpu;
        && c'.memory == got.memory && c'.regs[LOAD_REG] == i.rt
        && c'.regs[LOAD_VALUE_REG] == LoadedValue(i, c.regs, at, got.value)
  {
    hide ReadMem, LoadedValue, Finish, Decode, Target;
    FetchKeeps(c);
    var c1 := c.(memory := Fetched(c).memory);
    assert Step(c) == Execute(i, c1);
    LoadGot(i, c1);
    var at := Unsigned(Target(i, c.regs));
    var got := ReadMem(c1.memory, ReadAddress(i, at), SizeOf(i.op));
    FinishKeeps(c1.(memory := got.memory), i.rt, LoadedValue(i, c.regs, at, got.value), Link(c.regs[NEXT_PC_REG]));
  }

  lemma StoreStep(c: Cpu, i: Instruction)
    requires ValidCpu(c) && Executes(c, i) && IsStore(i.op) && Step(c).Stepped?
    ensures var m := Fetched(c).memory;
      && ValidCpu(c.(memory := m))
      && var put := StoreOf(i, c.(memory := m), Unsigned(Target(i, c.regs)));
         put.Put? && Step(c).cpu.memory == put.memory
  {
    hide ReadMem, Finish, Decode, Target, StoreOf;
    FetchKeeps(c);
    var c1 := c.(memory := Fetched(c).memory);
    assert Step(c) == Execute(i, c1);
    StorePut(i, c1);
    var put := StoreOf(i, c1, Unsigned(Target(i, c.regs)));
    FinishKeeps(c1.(memory := put.memory), 0, 0, Link(c.regs[NEXT_PC_REG]));
  }

  /** LWR, then LWL three bytes on, as two instructions of a program: the load that is then pending is
      the word at the first address, lowest byte first, even though the LWL comes in the delay slot of
      the LWR, and even if the word lies on two pages. */
  lemma LoadsUnalignedWord(c: Cpu, lwr: Instruction, lwl: Instruction, k: nat)
    requires ValidCpu(c) && lwr.op == Lwr && lwl.op == Lwl && lwl.rt == lwr.rt && k < 4
    requires Executes(c, lwr) && Step(c).Stepped?
    requires var c1 := Step(c).cpu;
      && ValidCpu(c1) && Executes(c1, lwl) && Step(c1).Stepped?
      && Unsigned(Target(lwl, c1.regs)) == Plus(Unsigned(Target(lwr, c.regs)), 3)
    ensures var c2 := Step(Step(c).cpu).cpu;
      && ValidCpu(c2) && c2.regs[LOAD_REG] == lwr.rt
      && ByteAt(c.memory, Plus(Unsigned(Target(lwr, c.regs)), k)) == Some(ByteOf(c2.regs[LOAD_VALUE_REG], k))
  {
    hide ReadMem, Step, Decode, Target, ByteAt, ByteOf, LoadLeftValue, LoadRightValue, SameFrames, Injective;
    var c1, a := Step(c).cpu, Unsigned(Target(lwr, c.regs));
    LoadStep(c, lwr);
    LoadStep(c1, lwl);
    StepsSettle(c1);
    var before := if c.regs[LOAD_REG] == lwr.rt then c.regs[LOAD_VALUE_REG] else c.regs[lwr.rt];
    ReadKeeps(c.memory, Unsigned(c.regs[PC_REG]));
    ReadKeeps(Fetched(c).memory, a - a % 4);
    ReadKeeps(c1.memory, Unsigned(c1.regs[PC_REG]));
    UnalignedLoad(Fetched(c).memory, Fetched(c1).memory, a, before, k);
  }

  /** SWR, then SWL three bytes on, of the same register value: the four bytes from the first address on
      are that word, and no other virtual byte has changed. */
  lemma StoresUnalignedWord(c: Cpu, swr: Instruction, swl: Instruction, x: Address)
    requires ValidCpu(c) && Injective(c.memory.mmu) && swr.op == Swr && swl.op == Swl
    requires Executes(c, swr) && Step(c).Stepped?
    requires var c1 := Step(c).cpu;
      && ValidCpu(c1) && Executes(c1, swl) && Step(c1).Stepped?
      && Unsigned(Target(swl, c1.regs)) == Plus(Unsigned(Target(swr, c.regs)), 3)
      && c1.regs[swl.rt] == c.regs[swr.rt]
    ensures var c2, a := Step(Step(c).cpu).cpu, Unsigned(Target(swr, c.regs));
      && ValidCpu(c2)
      && ByteAt(c2.memory, x) ==
           if Behind(a, x) < 4 then Some(ByteOf(c.regs[swr.rt], Behind(a, x))) else ByteAt(c.memory, x)
  {
    hide ReadMem, Step, Decode, Target, ByteAt, ByteOf, StoreLeft, StoreRight, SameFrames, Injective;
    var c1, a := Step(c).cpu, Unsigned(Target(swr, c.regs));
    StoreStep(c, swr);
    StoreStep(c1, swl);
    StepsSettle(c1);
    ReadKeeps(c.memory, Unsigned(c.regs[PC_REG]));
    ReadKeeps(c1.memory, Unsigned(c1.regs[PC_REG]));
    UnalignedStore(Fetched(c).memory, Fetched(c1).memory, a, c.regs[swr.rt], x);
  }

  // ---------------------------------------------------------------- starting again

  /** Two states no program can tell apart: they differ at most in the bad address, and in the value of
      a load that is not pending. */
  ghost predicate Same(c: Cpu, d: Cpu) {
    && ValidCpu(c) && ValidCpu(d) && c.memory == d.memory
    && (forall g :: 0 <= g <= LOAD_REG ==> c.regs[g] == d.regs[g])
    && (c.regs[LOAD_REG] != 0 ==> c.regs[LOAD_VALUE_REG] == d.regs[LOAD_VALUE_REG])
  }

  ghost predicate SameNext(n: Next, m: Next) {
    Same(n.cpu, m.cpu) && (n.Stepped? <==> m.Stepped?) && (n.Trapped? ==> n.exception == m.exception)
  }

  lemma SameFinish(c: Cpu, d: Cpu, c1: Cpu, d1: Cpu, nextReg: Reg, v: Word, w: Word, pcAfter: Word)
    requires Same(c, d) && |c1.regs| == |d1.regs| == NUM_TOTAL_REGS && ValidMemory(c1.memory) && c1.memory == d1.memory
    requires forall g :: 0 <= g < LOAD_REG ==> c1.regs[g] == d1.regs[g]
    requires c1.regs[LOAD_REG] == c.regs[LOAD_REG] && c1.regs[LOAD_VALUE_REG] == c.regs[LOAD_VALUE_REG]
    requires d1.regs[LOAD_REG] == d.regs[LOAD_REG] && d1.regs[LOAD_VALUE_REG] == d.regs[LOAD_VALUE_REG]
    requires nextReg != 0 ==> v == w
    ensures SameNext(Finish(c1, nextReg, v, pcAfter), Finish(d1, nextReg, w, pcAfter))
  {
    hide ValidMemory;
    FinishKeeps(c1, nextReg, v, pcAfter);
    FinishKeeps(d1, nextReg, w, pcAfter);
  }

  lemma SameRaise(c: Cpu, d: Cpu, m: Memory, exception: Exception, bad: Word)
    requires Same(c, d) && ValidMemory(m)
    ensures SameNext(RaiseException(c.(memory := m), exception, bad), RaiseException(d.(memory := m), exception, bad))
  {
    hide ValidMemory;
    DelayedLoadKeeps(c.regs[BAD_VADDR_REG := bad], 0, 0);
    DelayedLoadKeeps(d.regs[BAD_VADDR_REG := bad], 0, 0);
  }

  lemma SameEffect(c: Cpu, d: Cpu, e: Effect)
    requires Same(c, d)
    ensures SameNext(Applied(c, e), Applied(d, e))
  {
    hide ValidMemory, Finish, RaiseException, SameNext;
    match e
    case Write(reg, value) => SameFinish(c, d, c.(regs := c.regs[reg := value]), d.(regs := d.regs[reg := value]), 0, 0,
                                         0, Link(c.regs[NEXT_PC_REG]));
    case WriteTwo(hi, lo) =>
      SameFinish(c, d, c.(regs := c.regs[HI_REG := hi][LO_REG := lo]), d.(regs := d.regs[HI_REG := hi][LO_REG := lo]),
                 0, 0, 0, Link(c.regs[NEXT_PC_REG]));
    case Jump(None, pc) => SameFinish(c, d, c, d, 0, 0, 0, pc);
    case Jump(Some(reg), pc) =>
      SameFinish(c, d, c.(regs := c.regs[reg := Link(c.regs[NEXT_PC_REG])]),
                 d.(regs := d.regs[reg := Link(d.regs[NEXT_PC_REG])]), 0, 0, 0, pc);
    case Raise(exception) =>
      assert c.(memory := c.memory) == c && d.(memory := d.memory) == d;
      SameRaise(c, d, c.memory, exception, 0);
  }

  lemma SameCompute(i: Instruction, c: Cpu, d: Cpu)
    requires Same(c, d) && !IsLoad(i.op) && !IsStore(i.op)
    ensures Compute(i, c.regs) == Compute(i, d.regs)
  {
    hide ValidMemory, EffectOf;
    assert c.regs[i.rs] == d.regs[i.rs] && c.regs[i.rt] == d.regs[i.rt];
    assert c.regs[HI_REG] == d.regs[HI_REG] && c.regs[LO_REG] == d.regs[LO_REG];
    assert c.regs[NEXT_PC_REG] == d.regs[NEXT_PC_REG];
  }

  lemma SameLoad(i: Instruction, c: Cpu, d: Cpu)
    requires Same(c, d) && IsLoad(i.op)
    ensures SameNext(ExecuteLoad(i, c), ExecuteLoad(i, d))
  {
    hide ReadMem, Finish, RaiseException, SameNext, Misaligned, LoadedValue, ValidMemory;
    var at := Unsigned(Target(i, c.regs));
    var from := ReadAddress(i, at);
    assert c.(memory := c.memory) == c && d.(memory := d.memory) == d;
    SameRaise(c, d, c.memory, AddressErrorException, Signed(at));
    match ReadMem(c.memory, from, SizeOf(i.op))
    case ReadFault(exception) => SameRaise(c, d, c.memory, exception, Signed(from));
    case Got(value, m) =>
      ReadIsValid(c.memory, from, SizeOf(i.op));
      SameLoadedValue(i, c, d, at, value);
      SameFinish(c, d, c.(memory := m), d.(memory := m), i.rt, LoadedValue(i, c.regs, at, value),
                 LoadedValue(i, d.regs, at, value), Link(c.regs[NEXT_PC_REG]));
  }

  lemma SameLoadedValue(i: Instruction, c: Cpu, d: Cpu, at: Address, value: Word)
    requires Same(c, d)
    ensures i.rt != 0 ==> LoadedValue(i, c.regs, at, value) == LoadedValue(i, d.regs, at, value)
  {
    hide ValidMemory, Unsigned, LoadLeftValue, LoadRightValue;
  }

  lemma ReadIsValid(m: Memory, u: Address, size: nat)
    requires ValidMemory(m) && LegalSize(size) && ReadMem(m, u, size).Got?
    ensures ValidMemory(ReadMem(m, u, size).memory)
  {
    TranslateKeepsFrames(m.mmu, u, size, false);
  }

  lemma SameStore(i: Instruction, c: Cpu, d: Cpu)
    requires Same(c, d) && IsStore(i.op)
    ensures SameNext(ExecuteStore(i, c), ExecuteStore(i, d))
  {
    hide StoreOf, Finish, RaiseException, SameNext, AfterFault;
    var at := Unsigned(Target(i, c.regs));
    var bad := if i.op.Swl? || i.op.Swr? then at - at % 4 else at;
    SameStoreOf(i, c, d, at, bad);
    match StoreOf(i, c, at)
    case WriteFault(exception) =>
      AfterFaultKeeps(i, c, bad);
      SameRaise(c, d, AfterFault(i, c, bad), exception, Signed(bad));
    case Put(m) =>
      StorePut(i, c);
      SameFinish(c, d, c.(memory := m), d.(memory := m), 0, 0, 0, Link(c.regs[NEXT_PC_REG]));
  }

  lemma SameStoreOf(i: Instruction, c: Cpu, d: Cpu, at: Address, bad: Address)
    requires Same(c, d) && IsStore(i.op)
    ensures StoreOf(i, c, at) == StoreOf(i, d, at) && AfterFault(i, c, bad) == AfterFault(i, d, bad)
  {
    hide StoreLeft, StoreRight, WriteMem, ReadMem, ValidMemory;
  }

  /** States that cannot be told apart stay so, step for step. */
  lemma SameSteps(c: Cpu, d: Cpu)
    requires Same(c, d)
    ensures SameNext(Step(c), Step(d))
  {
    hide ReadMem, ValidMemory, Execute, Decode, RaiseException, SameNext;
    var pc := Unsigned(c.regs[PC_REG]);
    match ReadMem(c.memory, pc, 4)
    case ReadFault(exception) =>
      assert c.(memory := c.memory) == c && d.(memory := d.memory) == d;
      SameRaise(c, d, c.memory, exception, c.regs[PC_REG]);
    case Got(raw, m) =>
      FetchKeeps(c);
      SameExecute(Decode(raw), c.(memory := m), d.(memory := m));
  }

  lemma SameExecute(i: Instruction, c: Cpu, d: Cpu)
    requires Same(c, d)
    ensures SameNext(Execute(i, c), Execute(i, d))
  {
    hide ExecuteLoad, ExecuteStore, Applied, Compute, SameNext, ValidMemory;
    if IsLoad(i.op) {
      SameLoad(i, c, d);
    } else if IsStore(i.op) {
      SameStore(i, c, d);
    } else {
      SameCompute(i, c, d);
      SameEffect(c, d, Compute(i, c.regs));
    }
  }

  /** When an instruction traps with no load pending and the kernel has since mended memory, starting it
      again goes exactly as if memory had been so in the first place. */
  lemma RestartsExactly(c: Cpu, mended: Memory)
    requires ValidCpu(c) && Step(c).Trapped? && c.regs[LOAD_REG] == 0 && ValidMemory(mended)
    ensures Same(c.(memory := mended), Step(c).cpu.(memory := mended))
    ensures ValidCpu(Step(c).cpu.(memory := mended)) &&
            SameNext(Step(c.(memory := mended)), Step(Step(c).cpu.(memory := mended)))
  {
    hide Step, ValidMemory, SameFrames, SameNext;
    TrapsAreRestartable(c);
    SameSteps(c.(memory := mended), Step(c).cpu.(memory := mended));
  }
}
