/** The simulated machine itself (machine/machine.cc, machine/translate.cc, machine/mipssim.cc): its
    memory, tables and registers change in place as the functions of the modules Translation and
    Instructions say. */
module Machines {
  import I = Instructions
  import Multipliers
  import opened Sectors
  import T = Translation
  import opened Unaligned
  import W = WordArithmetic
  import opened Wrappers

  class Machine {
    const mainMemory: array<Byte>
    /** The TLB, or the page table. */
    var mmu: T.Mmu
    var registers: seq<Word>

    ghost function Memory(): T.Memory
      reads this, mainMemory
    {
      T.Memory(mainMemory[..], mmu)
    }

    ghost function View(): I.Cpu
      reads this, mainMemory
    {
      I.Cpu(registers, Memory())
    }

    ghost predicate Valid()
      reads this, mainMemory
    {
      I.ValidCpu(View())
    }

    constructor (mmu: T.Mmu)
      requires mmu.Tlb? ==> |mmu.entries| == T.TLB_SIZE
      ensures Valid() && fresh(mainMemory) && this.mmu == mmu
      ensures forall g :: 0 <= g < |registers| ==> registers[g] == 0
    {
      mainMemory := new Byte[T.MEMORY_SIZE](_ => 0);
      registers := seq(I.NUM_TOTAL_REGS, _ => 0);
      this.mmu := mmu;
    }

    // ---------------------------------------------------------------- translate.cc

    /** The search of the TLB stops at the first valid entry for the page. */
    method SearchTlb(vpn: nat) returns (i: nat)
      requires mmu.Tlb?
      ensures i == T.FirstMatch(mmu.entries, vpn, 0)
    {
      i := 0;
      while i < |mmu.entries| && !(mmu.entries[i].valid && mmu.entries[i].virtualPage == vpn)
        invariant i <= |mmu.entries| && T.FirstMatch(mmu.entries, vpn, i) == T.FirstMatch(mmu.entries, vpn, 0)
      {
        i := i + 1;
      }
    }

    method FindEntry(vpn: nat) returns (f: T.Found)
      ensures f == T.FindEntry(mmu, vpn)
    {
      if mmu.PageTable? {
        if vpn >= |mmu.entries| {
          return T.Missing(T.AddressErrorException);
        } else if !mmu.entries[vpn].valid {
          return T.Missing(T.PageFaultException);
        }
        return T.Slot(vpn);
      }
      var i := SearchTlb(vpn);
      if i == |mmu.entries| {
        return T.Missing(T.PageFaultException);
      }
      return T.Slot(i);
    }

    /** Use and dirty bits are set only if there is no exception, and what the code asserts of the
        physical address holds. */
    method Translate(u: T.Address, size: nat, writing: bool) returns (exception: Option<T.Exception>, physAddr: nat)
      requires T.LegalSize(size)
      modifies this`mmu
      ensures match T.Translate(old(mmu), u, size, writing)
        case Fault(e) => exception == Some(e) && mmu == old(mmu)
        case Physical(a, mmu') => exception == None && physAddr == a && mmu == mmu' && a + size <= T.MEMORY_SIZE
    {
      physAddr := 0;
      if T.Misaligned(u, size) {
        return Some(T.AddressErrorException), 0;
      }
      var found := FindEntry(u / T.PAGE_SIZE);
      if found.Missing? {
        return Some(found.exception), 0;
      }
      var e := mmu.entries[found.i];
      if e.readOnly && writing {
        return Some(T.ReadOnlyException), 0;
      }
      if !T.LegalFrame(e) {
        return Some(T.BusErrorException), 0;
      }
      T.StaysInFrame(mmu, u, size, writing);
      mmu := T.Used(mmu, found.i, writing);
      return None, e.physicalPage * T.PAGE_SIZE + u % T.PAGE_SIZE;
    }

    /** A read that cannot be translated traps; otherwise the bytes are assembled. */
    method ReadMem(u: T.Address, size: nat) returns (exception: Option<T.Exception>, value: Word)
      requires Valid() && T.LegalSize(size)
      modifies this
      ensures match T.ReadMem(old(Memory()), u, size)
        case ReadFault(e) => exception == Some(e) && View() == I.RaiseException(old(View()), e, Signed(u)).cpu
        case Got(v, m) => exception == None && value == v && View() == old(View()).(memory := m)
    {
      hide T.Translate, I.DelayedLoad;
      var physAddr;
      exception, physAddr := Translate(u, size, false);
      if exception.Some? {
        RaiseException(exception.value, Signed(u));
        return exception, 0;
      }
      var low: int := mainMemory[physAddr];
      if size == 1 {
        value := if low < 128 then low else low - 256;
      } else if size == 2 {
        var high: int := mainMemory[physAddr + 1];
        value := low + 256 * high;
      } else {
        value := WordOf(mainMemory[physAddr], mainMemory[physAddr + 1], mainMemory[physAddr + 2],
                        mainMemory[physAddr + 3]);
      }
    }

    method WriteMem(u: T.Address, size: nat, value: Word) returns (exception: Option<T.Exception>)
      requires Valid() && T.LegalSize(size)
      modifies this, mainMemory
      ensures match T.WriteMem(old(Memory()), u, size, value)
        case WriteFault(e) => exception == Some(e) && View() == I.RaiseException(old(View()), e, Signed(u)).cpu
        case Put(m) => exception == None && View() == old(View()).(memory := m)
    {
      hide T.Translate, I.DelayedLoad;
      var physAddr;
      exception, physAddr := Translate(u, size, true);
      if exception.Some? {
        RaiseException(exception.value, Signed(u));
        return;
      }
      Store(physAddr, size, value);
    }

    method Store(a: nat, size: nat, value: Word)
      requires T.LegalSize(size) && a + size <= mainMemory.Length
      modifies mainMemory
      ensures mainMemory[..] == T.Stored(old(mainMemory[..]), a, size, value)
    {
      mainMemory[a] := ByteOf(value, 0);
      if size >= 2 {
        mainMemory[a + 1] := ByteOf(value, 1);
      }
      if size == 4 {
        mainMemory[a + 2] := ByteOf(value, 2);
        mainMemory[a + 3] := ByteOf(value, 3);
      }
    }

    // ---------------------------------------------------------------- mipssim.cc, machine.cc

    method DelayedLoad(nextReg: I.Reg, nextValue: Word)
      requires |registers| == I.NUM_TOTAL_REGS && 0 <= registers[I.LOAD_REG] < 32
      modifies this`registers
      ensures registers == I.DelayedLoad(old(registers), nextReg, nextValue)
    {
      registers := registers[registers[I.LOAD_REG] := registers[I.LOAD_VALUE_REG]];
      registers := registers[I.LOAD_REG := nextReg];
      registers := registers[I.LOAD_VALUE_REG := nextValue];
      registers := registers[0 := 0];
    }

    /** Up to the kernel's handler. */
    method RaiseException(exception: T.Exception, badVAddr: Word)
      requires |registers| == I.NUM_TOTAL_REGS && 0 <= registers[I.LOAD_REG] < 32
      modifies this`registers
      ensures View() == I.RaiseException(old(View()), exception, badVAddr).cpu
    {
      registers := registers[I.BAD_VADDR_REG := badVAddr];
      DelayedLoad(0, 0);
    }

    method Finish(nextReg: I.Reg, nextValue: Word, pcAfter: Word)
      requires |registers| == I.NUM_TOTAL_REGS && 0 <= registers[I.LOAD_REG] < 32
      modifies this`registers
      ensures View() == I.Finish(old(View()), nextReg, nextValue, pcAfter).cpu
    {
      DelayedLoad(nextReg, nextValue);
      registers := registers[I.PREV_PC_REG := registers[I.PC_REG]];
      registers := registers[I.PC_REG := registers[I.NEXT_PC_REG]];
      registers := registers[I.NEXT_PC_REG := pcAfter];
    }

    /** An instruction that leaves memory alone: the registers are written one by one, and an overflow
        or an illegal instruction traps. */
    method ExecuteOther(i: I.Instruction) returns (exception: Option<T.Exception>)
      requires Valid() && !I.IsLoad(i.op) && !I.IsStore(i.op)
      modifies this`registers
      ensures View() == I.Applied(old(View()), I.Compute(i, old(registers))).cpu
      ensures exception == Trap(I.Applied(old(View()), I.Compute(i, old(registers))))
    {
      hide I.Compute, I.Finish, I.RaiseException, Carried;
      ghost var c, e := View(), I.Compute(i, registers);
      var pcAfter;
      if InSums(i.op) {
        exception, pcAfter := ExecuteSum(i);
      } else if InBits(i.op) {
        exception, pcAfter := ExecuteBits(i);
      } else if InShifts(i.op) {
        exception, pcAfter := ExecuteShift(i);
      } else if InHiLo(i.op) {
        exception, pcAfter := ExecuteHiLo(i);
      } else if I.Jumps(i.op) {
        exception, pcAfter := ExecuteJump(i);
      } else {
        exception, pcAfter := ExecuteLast(i);
      }
      CarriedOut(c, e, registers, pcAfter, exception);
      if exception.Some? {
        RaiseException(exception.value, 0);
        return;
      }
      Finish(0, 0, pcAfter);
    }

    method ExecuteSum(i: I.Instruction) returns (exception: Option<T.Exception>, pcAfter: Word)
      requires |registers| == I.NUM_TOTAL_REGS && InSums(i.op)
      modifies this`registers
      ensures Carried(I.Compute(i, old(registers)), old(registers), registers, pcAfter, exception)
    {
      hide W.Wrap;
      exception, pcAfter := None, I.Link(registers[I.NEXT_PC_REG]);
      var a, b := registers[i.rs], registers[i.rt];
      match i.op {
        case Add =>
          var sum := W.Wrap(a + b);
          if (a < 0) == (b < 0) && (a < 0) != (sum < 0) {
            return Some(T.OverflowException), pcAfter;
          }
          registers := registers[i.rd := sum];
        case Addi =>
          var sum := W.Wrap(a + i.extra);
          if (a < 0) == (i.extra < 0) && (i.extra < 0) != (sum < 0) {
            return Some(T.OverflowException), pcAfter;
          }
          registers := registers[i.rt := sum];
        case Addiu =>
          registers := registers[i.rt := W.Wrap(a + i.extra)];
        case Addu =>
          registers := registers[i.rd := W.Wrap(a + b)];
        case Sub =>
          var difference := W.Wrap(a - b);
          if (a < 0) != (b < 0) && (a < 0) != (difference < 0) {
            return Some(T.OverflowException), pcAfter;
          }
          registers := registers[i.rd := difference];
        case Subu =>
          registers := registers[i.rd := W.Wrap(a - b)];
      }
    }

    method ExecuteBits(i: I.Instruction) returns (exception: Option<T.Exception>, pcAfter: Word)
      requires |registers| == I.NUM_TOTAL_REGS && InBits(i.op)
      modifies this`registers
      ensures Carried(I.Compute(i, old(registers)), old(registers), registers, pcAfter, exception)
    {
      hide W.BitAnd, W.BitOr, W.BitXor, W.BitNot, Unsigned;
      exception, pcAfter := None, I.Link(registers[I.NEXT_PC_REG]);
      var a, b, low := registers[i.rs], registers[i.rt], Unsigned(i.extra) % 0x1_0000;
      match i.op {
        case And => registers := registers[i.rd := W.BitAnd(a, b)];
        case Andi => registers := registers[i.rt := W.BitAnd(a, low)];
        case Nor => registers := registers[i.rd := W.BitNot(W.BitOr(a, b))];
        case Or => registers := registers[i.rd := W.BitOr(a, b)];
        case Ori => registers := registers[i.rt := W.BitOr(a, low)];
        case Xor => registers := registers[i.rd := W.BitXor(a, b)];
        case Xori => registers := registers[i.rt := W.BitXor(a, low)];
      }
    }

    method ExecuteShift(i: I.Instruction) returns (exception: Option<T.Exception>, pcAfter: Word)
      requires |registers| == I.NUM_TOTAL_REGS && InShifts(i.op)
      modifies this`registers
      ensures Carried(I.Compute(i, old(registers)), old(registers), registers, pcAfter, exception)
    {
      hide W.ShiftLeft, W.ShiftRight, Unsigned;
      exception, pcAfter := None, I.Link(registers[I.NEXT_PC_REG]);
      var a, b, distance := registers[i.rs], registers[i.rt], Unsigned(i.extra) % 32;
      match i.op {
        case Sll => registers := registers[i.rd := W.ShiftLeft(b, distance)];
        case Sllv => registers := registers[i.rd := W.ShiftLeft(b, Unsigned(a) % 32)];
        case Sra => registers := registers[i.rd := W.ShiftRight(b, distance)];
        case Srav => registers := registers[i.rd := W.ShiftRight(b, Unsigned(a) % 32)];
        case Srl =>
          var tmp := b;
          tmp := W.ShiftRight(tmp, distance);
          registers := registers[i.rd := tmp];
        case Srlv =>
          var tmp := b;
          tmp := W.ShiftRight(tmp, Unsigned(a) % 32);
          registers := registers[i.rd := tmp];
        case Lui => registers := registers[i.rt := W.ShiftLeft(i.extra, 16)];
      }
    }

    /** Products and quotients, and what moves to and from the pair that holds them. */
    method ExecuteHiLo(i: I.Instruction) returns (exception: Option<T.Exception>, pcAfter: Word)
      requires |registers| == I.NUM_TOTAL_REGS && InHiLo(i.op)
      modifies this`registers
      ensures Carried(I.Compute(i, old(registers)), old(registers), registers, pcAfter, exception)
    {
      hide W.Quotient, W.Wrap, Unsigned, Multipliers.ProductWords;
      exception, pcAfter := None, I.Link(registers[I.NEXT_PC_REG]);
      var a, b := registers[i.rs], registers[i.rt];
      match i.op {
        case Div =>
          if b == 0 {
            registers := registers[I.LO_REG := 0];
            registers := registers[I.HI_REG := 0];
          } else {
            registers := registers[I.LO_REG := W.Wrap(W.Quotient(a, b))];
            registers := registers[I.HI_REG := W.Wrap(a - b * W.Quotient(a, b))];
          }
        case Divu =>
          var rs, rt := Unsigned(a), Unsigned(b);
          UnsignedIsZero(b);
          if rt == 0 {
            registers := registers[I.LO_REG := 0];
            registers := registers[I.HI_REG := 0];
          } else {
            registers := registers[I.LO_REG := W.Wrap(rs / rt)];
            registers := registers[I.HI_REG := W.Wrap(rs % rt)];
          }
        case Mfhi => registers := registers[i.rd := registers[I.HI_REG]];
        case Mflo => registers := registers[i.rd := registers[I.LO_REG]];
        case Mthi => registers := registers[I.HI_REG := a];
        case Mtlo => registers := registers[I.LO_REG := a];
        case Mult =>
          var hi, lo := Multipliers.Multiply(a, b, true);
          registers := registers[I.HI_REG := hi][I.LO_REG := lo];
        case Multu =>
          var hi, lo := Multipliers.Multiply(a, b, false);
          registers := registers[I.HI_REG := hi][I.LO_REG := lo];
      }
    }

    /** Branches and jumps. Those that link write R31, or `rd`, before they look at their operand. */
    method ExecuteJump(i: I.Instruction) returns (exception: Option<T.Exception>, pcAfter: Word)
      requires |registers| == I.NUM_TOTAL_REGS && I.Jumps(i.op)
      modifies this`registers
      ensures Carried(I.Compute(i, old(registers)), old(registers), registers, pcAfter, exception)
    {
      hide W.Wrap, Unsigned, Signed;
      exception, pcAfter := None, I.Link(registers[I.NEXT_PC_REG]);
      var branch := W.Wrap(registers[I.NEXT_PC_REG] + 4 * i.extra);
      var link := pcAfter;
      match i.op {
        case Beq =>
          if registers[i.rs] == registers[i.rt] { pcAfter := branch; }
        case Bne =>
          if registers[i.rs] != registers[i.rt] { pcAfter := branch; }
        case Bgez =>
          if registers[i.rs] >= 0 { pcAfter := branch; }
        case Bgezal =>
          registers := registers[I.R31 := link];
          if registers[i.rs] >= 0 { pcAfter := branch; }
        case Bltz =>
          if registers[i.rs] < 0 { pcAfter := branch; }
        case Bltzal =>
          registers := registers[I.R31 := link];
          if registers[i.rs] < 0 { pcAfter := branch; }
        case Bgtz =>
          if registers[i.rs] > 0 { pcAfter := branch; }
        case Blez =>
          if registers[i.rs] <= 0 { pcAfter := branch; }
        case J =>
          pcAfter := I.JumpTarget(registers[I.NEXT_PC_REG], i.extra);
        case Jal =>
          pcAfter := I.JumpTarget(registers[I.NEXT_PC_REG], i.extra);
          registers := registers[I.R31 := link];
        case Jalr =>
          registers := registers[i.rd := link];
          pcAfter := registers[i.rs];
        case Jr =>
          pcAfter := registers[i.rs];
      }
    }

    /** Comparisons, system calls, and what is no instruction. */
    method ExecuteLast(i: I.Instruction) returns (exception: Option<T.Exception>, pcAfter: Word)
      requires |registers| == I.NUM_TOTAL_REGS && !I.IsLoad(i.op) && !I.IsStore(i.op)
      requires !InSums(i.op) && !InBits(i.op) && !InShifts(i.op) && !InHiLo(i.op) && !I.Jumps(i.op)
      modifies this`registers
      ensures Carried(I.Compute(i, old(registers)), old(registers), registers, pcAfter, exception)
    {
      hide Unsigned;
      exception, pcAfter := None, I.Link(registers[I.NEXT_PC_REG]);
      var a, b := registers[i.rs], registers[i.rt];
      match i.op {
        case Slt =>
          registers := registers[i.rd := if a < b then 1 else 0];
        case Slti =>
          registers := registers[i.rt := if a < i.extra then 1 else 0];
        case Sltiu =>
          registers := registers[i.rt := if Unsigned(a) < Unsigned(i.extra) then 1 else 0];
        case Sltu =>
          registers := registers[i.rd := if Unsigned(a) < Unsigned(b) then 1 else 0];
        case Syscall =>
          exception := Some(T.SyscallException);
        case _ =>
          exception := Some(T.IllegalInstrException);
      }
    }

    method ExecuteLoad(i: I.Instruction) returns (exception: Option<T.Exception>)
      requires Valid() && I.IsLoad(i.op)
      modifies this
      ensures View() == I.ExecuteLoad(i, old(View())).cpu
      ensures exception == Trap(I.ExecuteLoad(i, old(View())))
    {
      hide T.ReadMem, I.Finish, I.RaiseException, I.LoadedValue, T.Misaligned;
      var at := Unsigned(I.Target(i, registers));
      var from, size := I.ReadAddress(i, at), I.SizeOf(i.op);
      if T.Misaligned(from, size) {
        RaiseException(T.AddressErrorException, Signed(at));
        return Some(T.AddressErrorException);
      }
      var value;
      exception, value := ReadMem(from, size);
      if exception.Some? {
        return;
      }
      Finish(i.rt, I.LoadedValue(i, registers, at, value), I.Link(registers[I.NEXT_PC_REG]));
    }

    /** SWL and SWR: read the word, merge, write it back; either access may trap. */
    method StoreUnaligned(i: I.Instruction, at: T.Address) returns (exception: Option<T.Exception>)
      requires Valid() && (i.op.Swl? || i.op.Swr?)
      modifies this, mainMemory
      ensures match I.StoreOf(i, old(View()), at)
        case WriteFault(e) => exception == Some(e) &&
          View() == I.RaiseException(old(View()).(memory := I.AfterFault(i, old(View()), at - at % 4)), e,
                                     Signed(at - at % 4)).cpu
        case Put(m) => exception == None && View() == old(View()).(memory := m)
    {
      hide T.ReadMem, T.WriteMem, I.RaiseException, StoreLeftValue, StoreRightValue, I.StoreOf, I.AfterFault,
           T.ValidMemory;
      var byte := at % 4;
      UnalignedSteps(i, View(), at);
      var value;
      exception, value := ReadMem(at - byte, 4);
      if exception.Some? {
        return;
      }
      var reg := registers[i.rt];
      var merged := if i.op.Swl? then StoreLeftValue(value, reg, byte) else StoreRightValue(value, reg, byte);
      exception := WriteMem(at - byte, 4, merged);
    }

    method ExecuteStore(i: I.Instruction) returns (exception: Option<T.Exception>)
      requires Valid() && I.IsStore(i.op)
      modifies this, mainMemory
      ensures View() == I.ExecuteStore(i, old(View())).cpu
      ensures exception == Trap(I.ExecuteStore(i, old(View())))
    {
      hide T.WriteMem, I.Finish, I.RaiseException, StoreLeft, StoreRight;
      var at := Unsigned(I.Target(i, registers));
      if i.op.Swl? || i.op.Swr? {
        exception := StoreUnaligned(i, at);
      } else {
        exception := WriteMem(at, I.SizeOf(i.op), registers[i.rt]);
      }
      if exception.Some? {
        return;
      }
      Finish(0, 0, I.Link(registers[I.NEXT_PC_REG]));
    }

    /** One instruction, or one trap, from which the instruction can be started again. */
    method OneInstruction() returns (exception: Option<T.Exception>)
      requires Valid()
      modifies this, mainMemory
      ensures Valid() && View() == I.Step(old(View())).cpu && exception == Trap(I.Step(old(View())))
      ensures exception.Some? ==> I.Restartable(old(View()), View())
      ensures registers[0] == 0 && 0 <= registers[I.LOAD_REG] < 32
    {
      hide T.ReadMem, I.Decode, I.Applied, I.Compute, I.ExecuteLoad, I.ExecuteStore, I.RaiseException, I.Restartable;
      ghost var c := View();
      I.StepsSettle(c);
      if I.Step(c).Trapped? {
        I.TrapsAreRestartable(c);
      }
      if I.Fetched(c).Got? {
        I.FetchKeeps(c);
      }
      var raw;
      exception, raw := ReadMem(Unsigned(registers[I.PC_REG]), 4);
      if exception.Some? {
        return;
      }
      var i := I.Decode(raw);
      if I.IsLoad(i.op) {
        exception := ExecuteLoad(i);
      } else if I.IsStore(i.op) {
        exception := ExecuteStore(i);
      } else {
        exception := ExecuteOther(i);
      }
    }
  }

  /** The exception, if a step traps. */
  ghost function Trap(n: I.Next): Option<T.Exception> {
    if n.Trapped? then Some(n.exception) else None
  }

  predicate InSums(op: I.Op) { op.Add? || op.Addi? || op.Addiu? || op.Addu? || op.Sub? || op.Subu? }

  predicate InBits(op: I.Op) { op.And? || op.Andi? || op.Nor? || op.Or? || op.Ori? || op.Xor? || op.Xori? }

  predicate InShifts(op: I.Op) { op.Sll? || op.Sllv? || op.Sra? || op.Srav? || op.Srl? || op.Srlv? || op.Lui? }

  predicate InHiLo(op: I.Op) {
    op.Div? || op.Divu? || op.Mfhi? || op.Mflo? || op.Mthi? || op.Mtlo? || op.Mult? || op.Multu?
  }

  /** The registers have been written as the effect says, but for the program counters. */
  ghost predicate Carried(e: I.Effect, r: seq<Word>, r': seq<Word>, pcAfter: Word, exception: Option<T.Exception>) {
    |r| == |r'| == I.NUM_TOTAL_REGS &&
    var link := I.Link(r[I.NEXT_PC_REG]);
    match e
    case Write(reg, value) => exception == None && r' == r[reg := value] && pcAfter == link
    case WriteTwo(hi, lo) => exception == None && r' == r[I.HI_REG := hi][I.LO_REG := lo] && pcAfter == link
    case Jump(None, pc) => exception == None && r' == r && pcAfter == pc
    case Jump(Some(reg), pc) => exception == None && r' == r[reg := link] && pcAfter == pc
    case Raise(which) => exception == Some(which) && r' == r
  }

  lemma CarriedOut(c: I.Cpu, e: I.Effect, r': seq<Word>, pcAfter: Word, exception: Option<T.Exception>)
    requires |c.regs| == I.NUM_TOTAL_REGS && 0 <= c.regs[I.LOAD_REG] < 32 && Carried(e, c.regs, r', pcAfter, exception)
    ensures |r'| == I.NUM_TOTAL_REGS && 0 <= r'[I.LOAD_REG] < 32
    ensures exception.None? ==> I.Applied(c, e) == I.Finish(c.(regs := r'), 0, 0, pcAfter)
    ensures exception.Some? ==> c.regs == r' && I.Applied(c, e) == I.RaiseException(c, exception.value, 0)
  {
    hide I.Finish, I.RaiseException, I.Link;
  }

  /** SWL and SWR: the aligned word is read, and the merged one written. */
  lemma UnalignedSteps(i: I.Instruction, c: I.Cpu, at: T.Address)
    requires I.ValidCpu(c) && (i.op.Swl? || i.op.Swr?)
    ensures var from, byte, reg := at - at % 4, at % 4, c.regs[i.rt];
      match T.ReadMem(c.memory, from, 4)
      case ReadFault(e) => I.StoreOf(i, c, at) == T.WriteFault(e) && I.AfterFault(i, c, from) == c.memory
      case Got(value, m) =>
        && I.AfterFault(i, c, from) == m && T.ValidMemory(m)
        && I.StoreOf(i, c, at) ==
             T.WriteMem(m, from, 4,
                        if i.op.Swl? then StoreLeftValue(value, reg, byte) else StoreRightValue(value, reg, byte))
  {
    hide T.ReadMem, T.WriteMem, StoreLeftValue, StoreRightValue, T.ValidMemory;
    if T.ReadMem(c.memory, at - at % 4, 4).Got? {
      ReadKeeps(c.memory, at - at % 4);
    }
  }

  lemma UnsignedIsZero(w: Word)
    ensures Unsigned(w) == 0 <==> w == 0
  {
  }
}
