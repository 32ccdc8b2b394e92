/** What a reader of a program may expect of one step of the simulated processor (machine/mipssim.cc),
    in terms of numbers and bits, for each group of instructions that only work on registers. */
module StepEffects {
  import opened Bitmaps
  import opened Instructions
  import M = Multipliers
  import opened Sectors
  import T = Translation
  import U = Unaligned
  import opened WordArithmetic
  import opened Wrappers

  /** After the step register `reg` holds `v`; but register 0 stays zero, and a load that was pending for
      this very register comes last. */
  ghost predicate Holds(r: seq<Word>, r': seq<Word>, reg: Reg, v: Word) {
    && |r| == |r'| == NUM_TOTAL_REGS
    && r'[reg] == if reg == 0 then 0 else if reg == r[LOAD_REG] then r[LOAD_VALUE_REG] else v
  }

  /** Of the general registers and HI and LO only these change, but for a load that was pending. */
  ghost predicate OnlyWrites(r: seq<Word>, r': seq<Word>, written: set<int>) {
    && |r| == |r'| == NUM_TOTAL_REGS
    && forall g :: 0 <= g < 34 && g !in written ==>
         r'[g] == if g == 0 then 0 else if g == r[LOAD_REG] then r[LOAD_VALUE_REG] else r[g]
  }

  lemma FinishWrites(c: Cpu, regs: seq<Word>, pcAfter: Word)
    requires ValidCpu(c) && |regs| == NUM_TOTAL_REGS && regs[LOAD_REG] == c.regs[LOAD_REG]
    requires regs[LOAD_VALUE_REG] == c.regs[LOAD_VALUE_REG]
    ensures var r' := Finish(c.(regs := regs), 0, 0, pcAfter).cpu.regs;
      && |r'| == NUM_TOTAL_REGS && r'[HI_REG] == regs[HI_REG] && r'[LO_REG] == regs[LO_REG] &&
         r'[NEXT_PC_REG] == pcAfter
      && forall reg: Reg ::
           r'[reg] == if reg == 0 then 0 else if reg == regs[LOAD_REG] then regs[LOAD_VALUE_REG] else regs[reg]
    ensures forall written: set<int> ::
              (forall g :: 0 <= g < 34 && g !in written ==> regs[g] == c.regs[g]) ==>
                OnlyWrites(c.regs, Finish(c.(regs := regs), 0, 0, pcAfter).cpu.regs, written)
  {
    DelayedLoadKeeps(regs, 0, 0);
  }

  /** The step of an instruction without memory access does what its effect says, and nothing undoes it. */
  ghost predicate TakesEffect(c: Cpu, n: Next, e: Effect)
    requires ValidCpu(c)
  {
    |n.cpu.regs| == NUM_TOTAL_REGS &&
    match e
    case Write(reg, v) =>
      && n.Stepped? && OnlyWrites(c.regs, n.cpu.regs, {reg})
      && if reg < 32 then Holds(c.regs, n.cpu.regs, reg, v) else n.cpu.regs[reg] == v
    case WriteTwo(hi, lo) =>
      && n.Stepped? && OnlyWrites(c.regs, n.cpu.regs, {HI_REG, LO_REG})
      && n.cpu.regs[HI_REG] == hi && n.cpu.regs[LO_REG] == lo
    case Jump(link, pc) =>
      && n.Stepped? && n.cpu.regs[NEXT_PC_REG] == pc
      && OnlyWrites(c.regs, n.cpu.regs, if link.Some? then {link.value} else {})
      && (link.Some? ==> Holds(c.regs, n.cpu.regs, link.value, Link(c.regs[NEXT_PC_REG])))
    case Raise(exception) => n.Trapped? && n.exception == exception
  }

  lemma EffectTaken(c: Cpu, e: Effect)
    requires ValidCpu(c)
    ensures TakesEffect(c, Applied(c, e), e)
  {
    hide Finish, T.ValidMemory;
    var link := Link(c.regs[NEXT_PC_REG]);
    match e
    case Write(reg, value) => FinishWrites(c, c.regs[reg := value], link);
    case WriteTwo(hi, lo) => FinishWrites(c, c.regs[HI_REG := hi][LO_REG := lo], link);
    case Jump(None, pc) => FinishWrites(c, c.regs, pc);
    case Jump(Some(reg), pc) => FinishWrites(c, c.regs[reg := link], pc);
    case Raise(exception) => DelayedLoadKeeps(c.regs[BAD_VADDR_REG := 0], 0, 0);
  }

  predicate OnRegisters(op: Op) { !IsLoad(op) && !IsStore(op) }

  lemma StepTakesEffect(c: Cpu, i: Instruction)
    requires ValidCpu(c) && Executes(c, i) && OnRegisters(i.op)
    ensures TakesEffect(c, Step(c), Compute(i, c.regs))
  {
    hide T.ReadMem, Decode, Compute, Applied, T.ValidMemory, Link;
    FetchKeeps(c);
    var c1 := c.(memory := Fetched(c).memory);
    assert Step(c) == Execute(i, c1);
    EffectTaken(c1, Compute(i, c.regs));
  }

  // ---------------------------------------------------------------- sums

  /** The step leaves `x` in a register if it is a word, and otherwise traps. */
  ghost predicate FitsOrTraps(r: seq<Word>, n: Next, reg: Reg, x: int) {
    if Fits(x) then n.Stepped? && Holds(r, n.cpu.regs, reg, x) else n.Trapped? && n.exception == T.OverflowException
  }

  /** ADD, ADDI and SUB give the exact result, or an overflow trap when, and only when, it does not fit
      in a word. */
  lemma SumOrTrap(c: Cpu, i: Instruction)
    requires ValidCpu(c) && Executes(c, i)
    ensures var a: int, b: int := c.regs[i.rs], c.regs[i.rt];
      && (i.op.Add? ==> FitsOrTraps(c.regs, Step(c), i.rd, a + b))
      && (i.op.Addi? ==> FitsOrTraps(c.regs, Step(c), i.rt, a + i.extra))
      && (i.op.Sub? ==> FitsOrTraps(c.regs, Step(c), i.rd, a - b))
  {
    hide Step, Executes, AddOverflows, SubOverflows, Wrap, T.ValidMemory, Holds, OnlyWrites;
    if i.op.Add? || i.op.Addi? || i.op.Sub? {
      StepTakesEffect(c, i);
      var a, b, extra := c.regs[i.rs], c.regs[i.rt], i.extra;
      OverflowTests(a, b);
      OverflowTests(a, extra);
    }
  }

  // ---------------------------------------------------------------- products and quotients

  ghost predicate HoldsProduct(r: seq<Word>, a: Word, b: Word, signedArith: bool) {
    |r| == NUM_TOTAL_REGS &&
    if signedArith then M.SignedDouble(r[HI_REG], r[LO_REG]) == a * b
    else M.Double(Unsigned(r[HI_REG]), Unsigned(r[LO_REG])) == Unsigned(a) * Unsigned(b)
  }

  /** After MULT the pair HI, LO is the product of the two registers as signed numbers, and after MULTU
      as unsigned ones. */
  lemma Multiplies(c: Cpu, i: Instruction)
    requires ValidCpu(c) && Executes(c, i) && (i.op.Mult? || i.op.Multu?)
    ensures Step(c).Stepped? && HoldsProduct(Step(c).cpu.regs, c.regs[i.rs], c.regs[i.rt], i.op.Mult?)
  {
    hide OnlyWrites, Step, Executes, T.ValidMemory, Compute, M.ProductWords, M.SignedDouble, M.Double;
    StepTakesEffect(c, i);
    MultEffect(i, c.regs);
    M.ProductIsExact(c.regs[i.rs], c.regs[i.rt], i.op.Mult?);
  }

  /** After DIV the quotient in LO and the remainder in HI make up the dividend, the remainder is smaller
      than the divisor and has the sign of the dividend; but for the one quotient that is no word, and but
      for a divisor of zero, for which both are zero. */
  lemma Divides(c: Cpu, i: Instruction)
    requires ValidCpu(c) && Executes(c, i) && i.op.Div?
    ensures var a, b, r' := c.regs[i.rs], c.regs[i.rt], Step(c).cpu.regs;
      && Step(c).Stepped? && |r'| == NUM_TOTAL_REGS
      && var hi: int, lo: int := r'[HI_REG], r'[LO_REG];
        if b == 0 then hi == 0 && lo == 0
        else if a == -0x8000_0000 && b == -1 then hi == 0 && lo == a
        else a == b * lo + hi && Abs(hi) < Abs(b) && (a >= 0 ==> hi >= 0) && (a <= 0 ==> hi <= 0)
  {
    hide OnlyWrites, Step, Executes, T.ValidMemory, Quotient, Wrap;
    StepTakesEffect(c, i);
    var a: int, b: int := c.regs[i.rs], c.regs[i.rt];
    if b != 0 {
      DivisionIsExact(a, b);
      WrapOfWord(a - b * Quotient(a, b));
      QuotientWraps(a, b);
    }
  }

  lemma WrapOfWord(x: int)
    requires Fits(x)
    ensures Wrap(x) == x
  {
    WrapNear(x);
  }

  lemma QuotientWraps(a: int, b: int)
    requires Fits(a) && Fits(b) && b != 0
    ensures if a == -0x8000_0000 && b == -1 then Wrap(Quotient(a, b)) == a && b * Quotient(a, b) == a
            else Wrap(Quotient(a, b)) == Quotient(a, b)
  {
    DivisionIsExact(a, b);
    if a == -0x8000_0000 && b == -1 {
      assert Quotient(a, b) == 0x8000_0000;
    } else {
      WrapOfWord(Quotient(a, b));
    }
  }

  /** After DIVU the same holds of the unsigned words. */
  lemma DividesUnsigned(c: Cpu, i: Instruction)
    requires ValidCpu(c) && Executes(c, i) && i.op.Divu?
    ensures var a, b, r' := Unsigned(c.regs[i.rs]), Unsigned(c.regs[i.rt]), Step(c).cpu.regs;
      && Step(c).Stepped? && |r'| == NUM_TOTAL_REGS
      && var hi, lo := Unsigned(r'[HI_REG]), Unsigned(r'[LO_REG]);
        if b == 0 then hi == 0 && lo == 0 else a == b * lo + hi && hi < b
  {
    hide OnlyWrites, Step, Executes, T.ValidMemory, Unsigned, Wrap;
    StepTakesEffect(c, i);
    var a, b := Unsigned(c.regs[i.rs]), Unsigned(c.regs[i.rt]);
    UnsignedZero(c.regs[i.rt]);
    if b != 0 {
      UnsignedQuotient(a, b);
      UnsignedWrap(a / b);
      UnsignedWrap(a % b);
    }
  }

  lemma UnsignedZero(w: Word)
    ensures Unsigned(0) == 0 && (Unsigned(w) == 0 <==> w == 0)
  {
  }

  lemma UnsignedWrap(u: int)
    requires 0 <= u < 0x1_0000_0000
    ensures Unsigned(Wrap(u)) == u
  {
  }

  lemma UnsignedQuotient(a: nat, b: nat)
    requires b > 0
    ensures a == b * (a / b) + a % b && 0 <= a % b < b && 0 <= a / b <= a
  {
    QuotientBound(a, b, a / b, a % b);
  }

  // ---------------------------------------------------------------- bits

  predicate OnBits(op: Op) { op.And? || op.Andi? || op.Or? || op.Ori? || op.Xor? || op.Xori? || op.Nor? }

  predicate IsImmediate(op: Op) { op.Andi? || op.Ori? || op.Xori? }

  /** AND, OR, XOR, NOR and their immediate forms work on each bit by itself; an immediate has zeros above
      its 16 bits. */
  lemma WorksOnBits(c: Cpu, i: Instruction, k: nat) returns (v: Word)
    requires ValidCpu(c) && Executes(c, i) && OnBits(i.op) && k < BITS_IN_WORD
    ensures Step(c).Stepped? && Holds(c.regs, Step(c).cpu.regs, if IsImmediate(i.op) then i.rt else i.rd, v)
    ensures var x, z := WordBit(c.regs[i.rs], k), WordBit(v, k);
      var y := WordBit(if IsImmediate(i.op) then Unsigned(i.extra) % 0x1_0000 else c.regs[i.rt], k);
      && (i.op.And? || i.op.Andi? ==> z == (x && y)) && (i.op.Or? || i.op.Ori? ==> z == (x || y))
      && (i.op.Xor? || i.op.Xori? ==> z == (x != y)) && (i.op.Nor? ==> z == !(x || y))
  {
    hide OnlyWrites, Step, Executes, T.ValidMemory, Holds, BitAnd, BitOr, BitXor, BitNot, WordBit, Unsigned;
    StepTakesEffect(c, i);
    var a, b := c.regs[i.rs], if IsImmediate(i.op) then Unsigned(i.extra) % 0x1_0000 else c.regs[i.rt];
    v := Compute(i, c.regs).value;
    BitwiseOperations(a, b, k);
    BitwiseOperations(BitOr(a, b), b, k);
  }

  predicate ShiftsLeft(op: Op) { op.Sll? || op.Sllv? || op.Lui? }

  predicate ShiftsRight(op: Op) { op.Srl? || op.Srlv? || op.Sra? || op.Srav? }

  predicate ByRegister(op: Op) { op.Sllv? || op.Srlv? || op.Srav? }

  /** SLL, SLLV and LUI move the bits up and put zeros below them. The four others move them down and repeat
      the sign above them: SRL and SRLV too. The distance is a field of the instruction, or the low five
      bits of a register; LUI shifts its immediate by 16. */
  lemma ShiftsBits(c: Cpu, i: Instruction, k: nat) returns (v: Word)
    requires ValidCpu(c) && Executes(c, i) && (ShiftsLeft(i.op) || ShiftsRight(i.op)) && k < BITS_IN_WORD
    ensures Step(c).Stepped? && Holds(c.regs, Step(c).cpu.regs, if i.op.Lui? then i.rt else i.rd, v)
    ensures var b := if i.op.Lui? then i.extra else c.regs[i.rt];
      var d := if i.op.Lui? then 16 else Unsigned(if ByRegister(i.op) then c.regs[i.rs] else i.extra) % 32;
      WordBit(v, k) == if ShiftsLeft(i.op) then k >= d && WordBit(b, k - d)
                       else if k + d < BITS_IN_WORD then WordBit(b, k + d) else b < 0
  {
    hide OnlyWrites, Step, Executes, T.ValidMemory, Holds, ShiftLeft, ShiftRight, WordBit, Unsigned;
    StepTakesEffect(c, i);
    v := Compute(i, c.regs).value;
    var d := if i.op.Lui? then 16 else Unsigned(if ByRegister(i.op) then c.regs[i.rs] else i.extra) % 32;
    ShiftLeftBit(if i.op.Lui? then i.extra else c.regs[i.rt], d, k);
    ShiftRightBit(c.regs[i.rt], d, k);
  }

  /** So SRL and SRLV shift an unsigned word only if it is not negative as a signed one, or not shifted. */
  lemma ShiftsUnsigned(c: Cpu, i: Instruction) returns (v: Word)
    requires ValidCpu(c) && Executes(c, i) && (i.op.Srl? || i.op.Srlv?)
    ensures Step(c).Stepped? && Holds(c.regs, Step(c).cpu.regs, i.rd, v)
    ensures var b, d := c.regs[i.rt], Unsigned(if i.op.Srlv? then c.regs[i.rs] else i.extra) % 32;
      Unsigned(v) == Down(Unsigned(b), d) <==> b >= 0 || d == 0
  {
    hide OnlyWrites, Step, Executes, T.ValidMemory, Holds, ShiftRight, Unsigned;
    StepTakesEffect(c, i);
    v := Compute(i, c.regs).value;
    ShiftRightIsLogical(c.regs[i.rt], Unsigned(if i.op.Srlv? then c.regs[i.rs] else i.extra) % 32);
  }

  // ---------------------------------------------------------------- words modulo 2^32

  /** `v` is the low word of `x`. */
  predicate LowWord(v: int, x: int) { (v - x) % 0x1_0000_0000 == 0 }

  /** `v` is the address of the instruction behind the delay slot. */
  ghost predicate BehindSlot(r: seq<Word>, v: Word) {
    |r| == NUM_TOTAL_REGS &&
    var next: int := r[NEXT_PC_REG];
    LowWord(v, next + 4)
  }

  lemma WrapIsLowWord(x: int)
    ensures LowWord(Wrap(x), x)
  {
    assert x == 0x1_0000_0000 * (x / 0x1_0000_0000) + x % 0x1_0000_0000;
  }

  lemma LinkIsBehind(r: seq<Word>)
    requires |r| == NUM_TOTAL_REGS
    ensures BehindSlot(r, Link(r[NEXT_PC_REG]))
  {
    hide Wrap, LowWord;
    var n: int := r[NEXT_PC_REG];
    WrapIsLowWord(n + 4);
  }

  /** ADDU, ADDIU and SUBU give the low word of the result and never trap. */
  lemma SumsModulo(c: Cpu, i: Instruction) returns (v: Word)
    requires ValidCpu(c) && Executes(c, i) && (i.op.Addu? || i.op.Addiu? || i.op.Subu?)
    ensures Step(c).Stepped? && Holds(c.regs, Step(c).cpu.regs, if i.op.Addiu? then i.rt else i.rd, v)
    ensures var a: int, b: int := c.regs[i.rs], c.regs[i.rt];
      LowWord(v, if i.op.Addu? then a + b else if i.op.Addiu? then a + i.extra else a - b)
  {
    hide OnlyWrites, Step, Executes, T.ValidMemory, Holds, Wrap, LowWord;
    StepTakesEffect(c, i);
    v := Compute(i, c.regs).value;
    var a: int, b: int, extra: int := c.regs[i.rs], c.regs[i.rt], i.extra;
    WrapIsLowWord(a + b);
    WrapIsLowWord(a + extra);
    WrapIsLowWord(a - b);
  }

  // ---------------------------------------------------------------- comparisons and moves

  /** SLT and SLTI compare signed numbers, SLTU and SLTIU unsigned ones; SLTIU extends its immediate with
      the sign first. */
  lemma Compares(c: Cpu, i: Instruction)
    requires ValidCpu(c) && Executes(c, i) && (i.op.Slt? || i.op.Slti? || i.op.Sltu? || i.op.Sltiu?)
    ensures Step(c).Stepped?
    ensures var a, b, r' := c.regs[i.rs], c.regs[i.rt], Step(c).cpu.regs;
      && (i.op.Slt? ==> Holds(c.regs, r', i.rd, if a < b then 1 else 0))
      && (i.op.Slti? ==> Holds(c.regs, r', i.rt, if a < i.extra then 1 else 0))
      && (i.op.Sltu? ==> Holds(c.regs, r', i.rd, if Unsigned(a) < Unsigned(b) then 1 else 0))
      && (i.op.Sltiu? ==> Holds(c.regs, r', i.rt, if Unsigned(a) < Unsigned(i.extra) then 1 else 0))
  {
    hide OnlyWrites, Step, Executes, T.ValidMemory, Holds, Unsigned;
    StepTakesEffect(c, i);
  }

  /** MFHI, MFLO, MTHI and MTLO move one word. */
  lemma Moves(c: Cpu, i: Instruction)
    requires ValidCpu(c) && Executes(c, i) && (i.op.Mfhi? || i.op.Mflo? || i.op.Mthi? || i.op.Mtlo?)
    ensures Step(c).Stepped? && |Step(c).cpu.regs| == NUM_TOTAL_REGS
    ensures var r, r' := c.regs, Step(c).cpu.regs;
      && (i.op.Mfhi? ==> Holds(r, r', i.rd, r[HI_REG])) && (i.op.Mflo? ==> Holds(r, r', i.rd, r[LO_REG]))
      && (i.op.Mthi? ==> r'[HI_REG] == r[i.rs]) && (i.op.Mtlo? ==> r'[LO_REG] == r[i.rs])
  {
    hide OnlyWrites, Step, Executes, T.ValidMemory, Holds;
    StepTakesEffect(c, i);
  }

  /** A system call traps, and so does what is no instruction. */
  lemma AlwaysTraps(c: Cpu, i: Instruction)
    requires ValidCpu(c) && Executes(c, i) && (i.op.Syscall? || i.op.Unimp? || i.op.Res?)
    ensures Step(c).Trapped?
    ensures Step(c).exception == if i.op.Syscall? then T.SyscallException else T.IllegalInstrException
  {
    hide OnlyWrites, Step, Executes, T.ValidMemory;
    StepTakesEffect(c, i);
  }

  // ---------------------------------------------------------------- branches and jumps

  /** After the step NextPC is `extra` words behind the instruction in the delay slot if the branch is
      taken, and the next word otherwise. */
  ghost predicate Goes(r: seq<Word>, n: Next, extra: int, taken: bool) {
    && n.Stepped? && |r| == |n.cpu.regs| == NUM_TOTAL_REGS
    && var next: int := r[NEXT_PC_REG]; LowWord(n.cpu.regs[NEXT_PC_REG], next + if taken then 4 * extra else 4)
  }

  ghost predicate GoesTo(n: Next, pc: Word) {
    n.Stepped? && |n.cpu.regs| == NUM_TOTAL_REGS && n.cpu.regs[NEXT_PC_REG] == pc
  }

  lemma BranchGoes(r: seq<Word>, n: Next, extra: Word, taken: bool)
    requires |r| == NUM_TOTAL_REGS && GoesTo(n, Branch(r[NEXT_PC_REG], taken, extra).pc)
    ensures Goes(r, n, extra, taken)
  {
    hide Wrap, LowWord;
    var next: int := r[NEXT_PC_REG];
    LinkIsBehind(r);
    WrapIsLowWord(next + 4 * extra);
  }

  /** BEQ, BNE, BGEZ, BGTZ, BLEZ and BLTZ. */
  lemma Branches(c: Cpu, i: Instruction)
    requires ValidCpu(c) && Executes(c, i)
    ensures i.op.Beq? ==> Goes(c.regs, Step(c), i.extra, c.regs[i.rs] == c.regs[i.rt])
    ensures i.op.Bne? ==> Goes(c.regs, Step(c), i.extra, c.regs[i.rs] != c.regs[i.rt])
    ensures i.op.Bgez? ==> Goes(c.regs, Step(c), i.extra, c.regs[i.rs] >= 0)
    ensures i.op.Bgtz? ==> Goes(c.regs, Step(c), i.extra, c.regs[i.rs] > 0)
    ensures i.op.Blez? ==> Goes(c.regs, Step(c), i.extra, c.regs[i.rs] <= 0)
    ensures i.op.Bltz? ==> Goes(c.regs, Step(c), i.extra, c.regs[i.rs] < 0)
  {
    hide Step, Executes, T.ValidMemory, Goes, Wrap, Holds, OnlyWrites;
    if i.op.Beq? || i.op.Bne? || i.op.Bgez? || i.op.Bgtz? || i.op.Blez? || i.op.Bltz? {
      var a, b := c.regs[i.rs], c.regs[i.rt];
      StepTakesEffect(c, i);
      BranchGoes(c.regs, Step(c), i.extra,
                 if i.op.Beq? then a == b else if i.op.Bne? then a != b else if i.op.Bgez? then a >= 0
                 else if i.op.Bgtz? then a > 0 else if i.op.Blez? then a <= 0 else a < 0);
    }
  }

  /** BGEZAL and BLTZAL put the address behind the delay slot in R31, whether they branch or not; if R31 is
      their operand it is that address they look at. */
  lemma BranchesAndLinks(c: Cpu, i: Instruction) returns (link: Word)
    requires ValidCpu(c) && Executes(c, i) && (i.op.Bgezal? || i.op.Bltzal?)
    ensures BehindSlot(c.regs, link) && Holds(c.regs, Step(c).cpu.regs, 31, link)
    ensures var a := if i.rs == 31 then link else c.regs[i.rs];
      Goes(c.regs, Step(c), i.extra, if i.op.Bgezal? then a >= 0 else a < 0)
  {
    hide Step, Executes, T.ValidMemory, Goes, Wrap, Holds, OnlyWrites, BehindSlot;
    StepTakesEffect(c, i);
    link := Link(c.regs[NEXT_PC_REG]);
    LinkIsBehind(c.regs);
    var a := if i.rs == 31 then link else c.regs[i.rs];
    BranchGoes(c.regs, Step(c), i.extra, if i.op.Bgezal? then a >= 0 else a < 0);
  }

  /** J and JAL go to their target, 26 bits of a word address, in the 256 megabytes in which the instruction
      behind the delay slot lies. JAL puts the address of that one in R31. */
  lemma JumpsToTarget(c: Cpu, i: Instruction) returns (link: Word, pc: Word)
    requires ValidCpu(c) && Executes(c, i) && (i.op.J? || i.op.Jal?)
    ensures BehindSlot(c.regs, link) && GoesTo(Step(c), pc) && 0 <= i.extra < 0x400_0000
    ensures Unsigned(pc) / 0x1000_0000 == Unsigned(link) / 0x1000_0000 && Unsigned(pc) % 0x1000_0000 == 4 * i.extra
    ensures i.op.Jal? ==> Holds(c.regs, Step(c).cpu.regs, 31, link)
  {
    hide Step, Executes, T.ValidMemory, Wrap, Holds, OnlyWrites, JumpTarget, BehindSlot, Unsigned;
    StepTakesEffect(c, i);
    link := Link(c.regs[NEXT_PC_REG]);
    LinkIsBehind(c.regs);
    TargetOfJump(c, i);
    pc := JumpTarget(c.regs[NEXT_PC_REG], i.extra);
    TargetParts(c.regs[NEXT_PC_REG], i.extra);
  }

  lemma TargetOfJump(c: Cpu, i: Instruction)
    requires ValidCpu(c) && Executes(c, i) && (i.op.J? || i.op.Jal?)
    ensures 0 <= i.extra < 0x400_0000
  {
    hide T.ValidMemory, Fetched;
  }

  lemma TargetParts(next: Word, extra: Word)
    requires 0 <= extra < 0x400_0000
    ensures var pc := Unsigned(JumpTarget(next, extra));
      pc / 0x1000_0000 == Unsigned(Link(next)) / 0x1000_0000 && pc % 0x1000_0000 == 4 * extra
  {
    hide Link;
    var high := Unsigned(Link(next)) / 0x1000_0000;
    SignedUnsigned(high * 0x1000_0000 + 4 * extra);
  }

  /** JR and JALR go to the address in their register. JALR puts the address behind the delay slot in `rd`
      before it looks there. */
  lemma JumpsToRegister(c: Cpu, i: Instruction) returns (link: Word)
    requires ValidCpu(c) && Executes(c, i) && (i.op.Jr? || i.op.Jalr?)
    ensures BehindSlot(c.regs, link)
    ensures GoesTo(Step(c), if i.op.Jalr? && i.rd == i.rs then link else c.regs[i.rs])
    ensures i.op.Jalr? ==> Holds(c.regs, Step(c).cpu.regs, i.rd, link)
  {
    hide Step, Executes, T.ValidMemory, Wrap, Holds, OnlyWrites, BehindSlot;
    StepTakesEffect(c, i);
    link := Link(c.regs[NEXT_PC_REG]);
    LinkIsBehind(c.regs);
  }

  // ---------------------------------------------------------------- what a step leaves alone

  /** The registers that an instruction writes itself, the program counters apart. */
  function Destinations(i: Instruction): set<int> {
    match i.op
    case Mult | Multu | Div | Divu => {HI_REG, LO_REG}
    case Mthi => {HI_REG}
    case Mtlo => {LO_REG}
    case Bgezal | Bltzal | Jal => {31}
    case Addi | Addiu | Andi | Ori | Xori | Slti | Sltiu | Lui => {i.rt}
    case Add | Addu | Sub | Subu | And | Or | Xor | Nor | Slt | Sltu | Mfhi | Mflo | Jalr => {i.rd}
    case Sll | Sllv | Srl | Srlv | Sra | Srav => {i.rd}
    case _ => {}
  }

  lemma EffectDestinations(i: Instruction, r: seq<Word>)
    requires |r| == NUM_TOTAL_REGS && OnRegisters(i.op)
    ensures match Compute(i, r)
      case Write(reg, _) => reg in Destinations(i)
      case WriteTwo(_, _) => HI_REG in Destinations(i) && LO_REG in Destinations(i)
      case Jump(link, _) => link.Some? ==> link.value in Destinations(i)
      case Raise(_) => true
  {
    hide Wrap, AddOverflows, SubOverflows, Quotient, M.ProductWords, ShiftLeft, ShiftRight, Unsigned, Signed;
    hide BitAnd, BitOr, BitXor, Link, JumpTarget;
  }

  lemma ReadKeepsBytes(m: T.Memory, u: T.Address, size: nat)
    requires T.ValidMemory(m) && T.LegalSize(size) && T.ReadMem(m, u, size).Got?
    ensures T.ReadMem(m, u, size).memory.bytes == m.bytes
  {
  }

  lemma AppliedKeepsMemory(c: Cpu, e: Effect)
    requires ValidCpu(c)
    ensures Applied(c, e).cpu.memory == c.memory
  {
  }

  lemma FinishOnlyWrites(c: Cpu, nextReg: Reg, nextValue: Word, pcAfter: Word)
    requires ValidRegs(c.regs)
    ensures OnlyWrites(c.regs, Finish(c, nextReg, nextValue, pcAfter).cpu.regs, {})
    ensures Finish(c, nextReg, nextValue, pcAfter).cpu.memory == c.memory
  {
    DelayedLoadKeeps(c.regs, nextReg, nextValue);
  }

  lemma MoreWritten(r: seq<Word>, r': seq<Word>, written: set<int>, more: set<int>)
    requires OnlyWrites(r, r', written) && written <= more
    ensures OnlyWrites(r, r', more)
  {
  }

  /** An instruction that completes leaves all registers as they were but its own destinations, and that of
      the load before it; a load writes none by itself. */
  lemma OthersKept(c: Cpu, i: Instruction)
    requires ValidCpu(c) && Executes(c, i) && Step(c).Stepped?
    ensures OnlyWrites(c.regs, Step(c).cpu.regs, Destinations(i))
    ensures !IsStore(i.op) ==> Step(c).cpu.memory.bytes == c.memory.bytes
  {
    hide T.ReadMem, Decode, Compute, T.ValidMemory, Link, Finish, OnlyWrites, Holds, Destinations, Target, StoreOf;
    hide LoadedValue, ExecuteLoad, ExecuteStore, Applied;
    FetchKeeps(c);
    ReadKeepsBytes(c.memory, Unsigned(c.regs[PC_REG]), 4);
    var c1 := c.(memory := Fetched(c).memory);
    assert Step(c) == Execute(i, c1);
    if IsLoad(i.op) {
      LoadGot(i, c1);
      var at := Unsigned(Target(i, c.regs));
      var got := T.ReadMem(c1.memory, ReadAddress(i, at), SizeOf(i.op));
      ReadKeepsBytes(c1.memory, ReadAddress(i, at), SizeOf(i.op));
      var link := Link(c.regs[NEXT_PC_REG]);
      FinishOnlyWrites(c1.(memory := got.memory), i.rt, LoadedValue(i, c.regs, at, got.value), link);
      MoreWritten(c.regs, Step(c).cpu.regs, {}, Destinations(i));
    } else if IsStore(i.op) {
      StorePut(i, c1);
      var put := StoreOf(i, c1, Unsigned(Target(i, c.regs)));
      FinishOnlyWrites(c1.(memory := put.memory), 0, 0, Link(c.regs[NEXT_PC_REG]));
      MoreWritten(c.regs, Step(c).cpu.regs, {}, Destinations(i));
    } else {
      StepTakesEffect(c, i);
      AppliedKeepsMemory(c1, Compute(i, c.regs));
      EffectDestinations(i, c.regs);
      match Compute(i, c.regs)
      case Write(reg, _) => MoreWritten(c.regs, Step(c).cpu.regs, {reg}, Destinations(i));
      case WriteTwo(_, _) => MoreWritten(c.regs, Step(c).cpu.regs, {HI_REG, LO_REG}, Destinations(i));
      case Jump(link, _) =>
        MoreWritten(c.regs, Step(c).cpu.regs, if link.Some? then {link.value} else {}, Destinations(i));
      case Raise(_) => assert false;
    }
  }

  // ---------------------------------------------------------------- loads and stores

  /** How many bytes a load or store moves, but for the unaligned ones. */
  function BytesMoved(op: Op): nat {
    if op.Lb? || op.Lbu? || op.Sb? then 1 else if op.Lh? || op.Lhu? || op.Sh? then 2 else 4
  }

  predicate MovesAligned(op: Op) { op.Lb? || op.Lbu? || op.Lh? || op.Lhu? || op.Lw? || op.Sb? || op.Sh? || op.Sw? }

  lemma TargetAddress(i: Instruction, r: seq<Word>)
    requires |r| == NUM_TOTAL_REGS
    ensures var base: int := r[i.rs]; LowWord(Unsigned(Target(i, r)), base + i.extra)
  {
    hide Wrap, LowWord, Unsigned;
    var base: int := r[i.rs];
    WrapIsLowWord(base + i.extra);
    UnsignedIsLowWord(Wrap(base + i.extra), base + i.extra);
  }

  lemma UnsignedIsLowWord(v: Word, x: int)
    requires LowWord(v, x)
    ensures LowWord(Unsigned(v), x)
  {
  }

  /** The address of a load or store is a register and the immediate, modulo 2^32. */
  ghost predicate IsTarget(c: Cpu, i: Instruction, at: int) {
    && |c.regs| == NUM_TOTAL_REGS && 0 <= at < 0x1_0000_0000
    && var base: int := c.regs[i.rs]; LowWord(at, base + i.extra)
  }

  /** A byte or half that is loaded is extended, with its sign or with zeros. */
  predicate Extended(op: Op, v: int) {
    && (op.Lb? ==> -0x80 <= v < 0x80) && (op.Lbu? ==> 0 <= v < 0x100)
    && (op.Lh? ==> -0x8000 <= v < 0x8000) && (op.Lhu? ==> 0 <= v < 0x1_0000)
  }

  /** The virtual bytes from `at` on are the lowest bytes of `v`, lowest first. */
  ghost predicate BytesAre(m: T.Memory, at: int, size: nat, v: Word) {
    && T.ValidMemory(m) && size <= 4 && 0 <= at
    && forall k: nat :: k < size ==> at + k < T.ADDRESSES && T.ByteAt(m, at + k) == Some(ByteOf(v, k))
  }

  /** A load of a byte or half keeps the bytes that were read, and extends them. */
  lemma ExtendsValue(i: Instruction, r: seq<Word>, at: T.Address, value: Word, k: nat)
    requires |r| == NUM_TOTAL_REGS && IsLoad(i.op) && MovesAligned(i.op) && k < BytesMoved(i.op)
    ensures var v := LoadedValue(i, r, at, value); Extended(i.op, v) && ByteOf(v, k) == ByteOf(value, k)
  {
    var u := Unsigned(value);
    if BytesMoved(i.op) == 2 {
      HalfBytes(u, u % 0x1_0000);
    }
  }

  lemma HalfBytes(u: nat, low: nat)
    requires low == u % 0x1_0000
    ensures u % 256 == low % 256 && u / 256 % 256 == low / 256
    ensures (low + 0xFFFF_0000) % 256 == low % 256 && (low + 0xFFFF_0000) / 256 % 256 == low / 256
  {
    var q := u / 0x1_0000;
    assert u == 256 * (256 * q + low / 256) + low % 256;
    assert u / 256 == 256 * q + low / 256;
    assert (low + 0xFFFF_0000) / 256 == 256 * 0xFFFF + low / 256;
  }

  lemma ReadIsAligned(m: T.Memory, u: T.Address, size: nat)
    requires T.ValidMemory(m) && T.LegalSize(size) && T.ReadMem(m, u, size).Got?
    ensures u % size == 0
  {
  }

  /** LB, LBU, LH, LHU and LW: the load that is pending after the step is for `rt`, and it is the bytes at
      the address, extended. */
  lemma LoadsBytes(c: Cpu, i: Instruction) returns (at: int, v: Word)
    requires ValidCpu(c) && Executes(c, i) && MovesAligned(i.op) && IsLoad(i.op) && Step(c).Stepped?
    ensures IsTarget(c, i, at) && at % BytesMoved(i.op) == 0
    ensures BytesAre(c.memory, at, BytesMoved(i.op), v) && Extended(i.op, v)
    ensures ValidCpu(Step(c).cpu) && Step(c).cpu.regs[LOAD_REG] == i.rt && Step(c).cpu.regs[LOAD_VALUE_REG] == v
  {
    hide T.ReadMem, T.ByteAt, Decode, T.ValidMemory, T.SameFrames, Step, Target, LoadedValue, ByteOf;
    StepsSettle(c);
    LoadStep(c, i);
    TargetAddress(i, c.regs);
    at := Unsigned(Target(i, c.regs));
    var m := Fetched(c).memory;
    var got := T.ReadMem(m, at, BytesMoved(i.op));
    v := LoadedValue(i, c.regs, at, got.value);
    U.ReadKeeps(c.memory, Unsigned(c.regs[PC_REG]));
    forall k: nat | k < BytesMoved(i.op)
      ensures at + k < T.ADDRESSES && T.ByteAt(c.memory, at + k) == Some(ByteOf(v, k))
    {
      T.ReadGivesEachByte(m, at, BytesMoved(i.op), k);
      ExtendsValue(i, c.regs, at, got.value, k);
    }
    ExtendsValue(i, c.regs, at, got.value, 0);
    ReadIsAligned(m, at, BytesMoved(i.op));
  }

  /** SB, SH and SW: where frames hold one page each, the lowest bytes of the register are stored at the
      address, lowest first, and no other virtual byte changes. */
  lemma StoresBytes(c: Cpu, i: Instruction, x: T.Address) returns (at: int)
    requires ValidCpu(c) && Executes(c, i) && MovesAligned(i.op) && IsStore(i.op) && Step(c).Stepped?
    requires T.Injective(c.memory.mmu)
    ensures IsTarget(c, i, at) && ValidCpu(Step(c).cpu)
    ensures T.ByteAt(Step(c).cpu.memory, x) ==
              if at <= x < at + BytesMoved(i.op) then Some(ByteOf(c.regs[i.rt], x - at)) else T.ByteAt(c.memory, x)
  {
    hide T.ReadMem, T.WriteMem, T.ByteAt, Decode, T.ValidMemory, T.FrameOf, Step, Target, ByteOf;
    StepsSettle(c);
    StoreStep(c, i);
    TargetAddress(i, c.regs);
    at := Unsigned(Target(i, c.regs));
    U.ReadKeeps(c.memory, Unsigned(c.regs[PC_REG]));
    T.WriteChangesOnly(Fetched(c).memory, at, BytesMoved(i.op), c.regs[i.rt], x);
  }

  /** These loads and stores trap exactly if their address is not a multiple of the number of bytes they move,
      or cannot be translated; and then the kernel finds this address in BadVAddr. */
  lemma AccessTraps(c: Cpu, i: Instruction) returns (at: T.Address, o: T.Outcome)
    requires ValidCpu(c) && Executes(c, i) && MovesAligned(i.op)
    ensures IsTarget(c, i, at) && o == T.Translate(Fetched(c).memory.mmu, at, BytesMoved(i.op), IsStore(i.op))
    ensures Step(c).Trapped? <==> at % BytesMoved(i.op) != 0 || o.Fault?
    ensures Step(c).Trapped? ==>
              Step(c).exception == if at % BytesMoved(i.op) != 0 then T.AddressErrorException else o.exception
    ensures Step(c).Trapped? ==> HasBadAddress(Step(c).cpu, at)
  {
    hide Decode, T.ValidMemory, Target, T.Translate, T.ValueAt, T.Stored, LoadedValue, Finish, RaiseException,
         HasBadAddress;
    FetchKeeps(c);
    TargetAddress(i, c.regs);
    at := Unsigned(Target(i, c.regs));
    var c1 := c.(memory := Fetched(c).memory);
    assert Step(c) == Execute(i, c1);
    o := T.Translate(c1.memory.mmu, at, BytesMoved(i.op), IsStore(i.op));
    MisalignedFaults(c1.memory.mmu, at, BytesMoved(i.op), IsStore(i.op));
    BadAddressKept(c1, T.AddressErrorException, Signed(at));
    if o.Fault? {
      BadAddressKept(c1, o.exception, Signed(at));
    }
  }

  /** BadVAddr, as an unsigned number. */
  ghost predicate HasBadAddress(c: Cpu, at: int) {
    |c.regs| == NUM_TOTAL_REGS && Unsigned(c.regs[BAD_VADDR_REG]) == at
  }

  lemma BadAddressKept(c: Cpu, exception: T.Exception, bad: Word)
    requires ValidCpu(c)
    ensures HasBadAddress(RaiseException(c, exception, bad).cpu, Unsigned(bad))
  {
    DelayedLoadKeeps(c.regs[BAD_VADDR_REG := bad], 0, 0);
  }

  /** An instruction that cannot be fetched traps, for the fault of its translation, with the address of the
      instruction in BadVAddr. */
  lemma FetchTraps(c: Cpu)
    requires ValidCpu(c) && Fetched(c).ReadFault?
    ensures T.Translate(c.memory.mmu, Unsigned(c.regs[PC_REG]), 4, false) == T.Fault(Fetched(c).exception)
    ensures Step(c).Trapped? && Step(c).exception == Fetched(c).exception
    ensures HasBadAddress(Step(c).cpu, Unsigned(c.regs[PC_REG]))
  {
    hide T.ValidMemory, RaiseException, HasBadAddress;
    BadAddressKept(c, Fetched(c).exception, c.regs[PC_REG]);
  }

  lemma MisalignedFaults(mmu: T.Mmu, u: T.Address, size: nat, writing: bool)
    requires T.LegalSize(size)
    ensures T.Misaligned(u, size) <==> u % size != 0
    ensures u % size != 0 ==> T.Translate(mmu, u, size, writing) == T.Fault(T.AddressErrorException)
  {
  }

  /** Where no branch or jump is, the instruction behind the next one comes after it. */
  lemma FallsThrough(c: Cpu, i: Instruction)
    requires ValidCpu(c) && Executes(c, i) && !Jumps(i.op) && Step(c).Stepped?
    ensures |Step(c).cpu.regs| == NUM_TOTAL_REGS && BehindSlot(c.regs, Step(c).cpu.regs[NEXT_PC_REG])
    ensures Step(c).cpu.regs[PC_REG] == c.regs[NEXT_PC_REG]
  {
    hide Step, Fetched, Decode, Jumps, T.ValidMemory, BehindSlot, Link;
    DelaySlot(c);
    LinkIsBehind(c.regs);
  }
}
