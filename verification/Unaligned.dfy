/** Unaligned words in the SIM_FIX build (machine/mipssim.cc, LWL, LWR, SWL, SWR): each instruction
    accesses the aligned word around its address and merges part of it with a register. */
module Unaligned {
  import opened Sectors
  import opened Translation
  import opened Wrappers

  // ---------------------------------------------------------------- merging

  /** SWL: `switch (3 - byte)` */
  function StoreLeftValue(value: Word, reg: Word, byte: nat): Word
    requires byte < 4
  {
    var v, r := Unsigned(value), Unsigned(reg);
    match 3 - byte
    case 0 => reg
    case 1 => Signed(v / 0x100_0000 * 0x100_0000 + r / 0x100)
    case 2 => Signed(v / 0x1_0000 * 0x1_0000 + r / 0x1_0000)
    case _ => Signed(v / 0x100 * 0x100 + r / 0x100_0000)
  }

  /** SWR */
  function StoreRightValue(value: Word, reg: Word, byte: nat): Word
    requires byte < 4
  {
    var v, r := Unsigned(value), Unsigned(reg);
    match 3 - byte
    case 0 => Signed(v % 0x100_0000 + r % 0x100 * 0x100_0000)
    case 1 => Signed(v % 0x1_0000 + r % 0x1_0000 * 0x1_0000)
    case 2 => Signed(v % 0x100 + r % 0x100_0000 * 0x100)
    case _ => reg
  }

  /** LWL */
  function LoadLeftValue(reg: Word, value: Word, byte: nat): Word
    requires byte < 4
  {
    var v, r := Unsigned(value), Unsigned(reg);
    match 3 - byte
    case 0 => value
    case 1 => Signed(r % 0x100 + v % 0x100_0000 * 0x100)
    case 2 => Signed(r % 0x1_0000 + v % 0x1_0000 * 0x1_0000)
    case _ => Signed(r % 0x100_0000 + v % 0x100 * 0x100_0000)
  }

  /** LWR */
  function LoadRightValue(reg: Word, value: Word, byte: nat): Word
    requires byte < 4
  {
    var v, r := Unsigned(value), Unsigned(reg);
    match 3 - byte
    case 0 => Signed(r / 0x100 * 0x100 + v / 0x100_0000)
    case 1 => Signed(r / 0x1_0000 * 0x1_0000 + v / 0x1_0000)
    case 2 => Signed(r / 0x100_0000 * 0x100_0000 + v / 0x100)
    case _ => value
  }

  /** A word as its bytes, and what shifts and masks leave of it. */
  lemma Bytes(w: Word)
    ensures var b0, b1, b2, b3 := ByteOf(w, 0), ByteOf(w, 1), ByteOf(w, 2), ByteOf(w, 3);
      var u := Unsigned(w);
      && u == b0 + 256 * b1 + 65536 * b2 + 16777216 * b3
      && u % 0x100 == b0 && u % 0x1_0000 == b0 + 256 * b1 && u % 0x100_0000 == b0 + 256 * b1 + 65536 * b2
      && u / 0x100 == b1 + 256 * b2 + 65536 * b3 && u / 0x1_0000 == b2 + 256 * b3 && u / 0x100_0000 == b3
  {
    var u := Unsigned(w);
    var q1, q2, q3 := u / 256, u / 256 / 256, u / 256 / 256 / 256;
    Shifts(u);
    assert q2 % 256 == q2 - 256 * q3;
    assert u == (u % 256) + 256 * (q1 % 256) + 65536 * q2;
    Remainder(u, 65536, q2, u % 256 + 256 * (q1 % 256));
    Remainder(u, 16777216, q3, u % 256 + 256 * (q1 % 256) + 65536 * (q2 % 256));
  }

  lemma Remainder(u: nat, d: nat, q: nat, r: nat)
    requires (d == 65536 || d == 16777216) && u == d * q + r && r < d
    ensures u % d == r
  {
  }

  lemma StoreLeftBytes(value: Word, reg: Word, byte: nat, k: nat)
    requires byte < 4 && k < 4
    ensures ByteOf(StoreLeftValue(value, reg, byte), k) ==
              if k <= byte then ByteOf(reg, k + 3 - byte) else ByteOf(value, k)
  {
    hide ByteOf;
    Bytes(value);
    Bytes(reg);
    match 3 - byte
    case 0 =>
    case 1 => BytesOfWord(ByteOf(reg, 1), ByteOf(reg, 2), ByteOf(reg, 3), ByteOf(value, 3));
    case 2 => BytesOfWord(ByteOf(reg, 2), ByteOf(reg, 3), ByteOf(value, 2), ByteOf(value, 3));
    case _ => BytesOfWord(ByteOf(reg, 3), ByteOf(value, 1), ByteOf(value, 2), ByteOf(value, 3));
  }

  lemma StoreRightBytes(value: Word, reg: Word, byte: nat, k: nat)
    requires byte < 4 && k < 4
    ensures ByteOf(StoreRightValue(value, reg, byte), k) ==
              if k >= byte then ByteOf(reg, k - byte) else ByteOf(value, k)
  {
    hide ByteOf;
    Bytes(value);
    Bytes(reg);
    match 3 - byte
    case 0 => BytesOfWord(ByteOf(value, 0), ByteOf(value, 1), ByteOf(value, 2), ByteOf(reg, 0));
    case 1 => BytesOfWord(ByteOf(value, 0), ByteOf(value, 1), ByteOf(reg, 0), ByteOf(reg, 1));
    case 2 => BytesOfWord(ByteOf(value, 0), ByteOf(reg, 0), ByteOf(reg, 1), ByteOf(reg, 2));
    case _ =>
  }

  lemma LoadLeftBytes(reg: Word, value: Word, byte: nat, k: nat)
    requires byte < 4 && k < 4
    ensures ByteOf(LoadLeftValue(reg, value, byte), k) ==
              if k >= 3 - byte then ByteOf(value, k + byte - 3) else ByteOf(reg, k)
  {
    hide ByteOf;
    Bytes(value);
    Bytes(reg);
    match 3 - byte
    case 0 =>
    case 1 => BytesOfWord(ByteOf(reg, 0), ByteOf(value, 0), ByteOf(value, 1), ByteOf(value, 2));
    case 2 => BytesOfWord(ByteOf(reg, 0), ByteOf(reg, 1), ByteOf(value, 0), ByteOf(value, 1));
    case _ => BytesOfWord(ByteOf(reg, 0), ByteOf(reg, 1), ByteOf(reg, 2), ByteOf(value, 0));
  }

  lemma LoadRightBytes(reg: Word, value: Word, byte: nat, k: nat)
    requires byte < 4 && k < 4
    ensures ByteOf(LoadRightValue(reg, value, byte), k) ==
              if k < 4 - byte then ByteOf(value, k + byte) else ByteOf(reg, k)
  {
    hide ByteOf;
    Bytes(value);
    Bytes(reg);
    match 3 - byte
    case 0 => BytesOfWord(ByteOf(value, 3), ByteOf(reg, 1), ByteOf(reg, 2), ByteOf(reg, 3));
    case 1 => BytesOfWord(ByteOf(value, 2), ByteOf(value, 3), ByteOf(reg, 2), ByteOf(reg, 3));
    case 2 => BytesOfWord(ByteOf(value, 1), ByteOf(value, 2), ByteOf(value, 3), ByteOf(reg, 3));
    case _ =>
  }

  // ---------------------------------------------------------------- stores

  /** SWR: read the aligned word, merge, write it back. */
  function StoreRight(m: Memory, at: Address, reg: Word): WriteResult
    requires ValidMemory(m)
  {
    var byte := at % 4;
    match ReadMem(m, at - byte, 4)
    case ReadFault(exception) => WriteFault(exception)
    case Got(value, m') =>
      ReadKeeps(m, at - byte);
      WriteMem(m', at - byte, 4, StoreRightValue(value, reg, byte))
  }

  /** SWL */
  function StoreLeft(m: Memory, at: Address, reg: Word): WriteResult
    requires ValidMemory(m)
  {
    var byte := at % 4;
    match ReadMem(m, at - byte, 4)
    case ReadFault(exception) => WriteFault(exception)
    case Got(value, m') =>
      ReadKeeps(m, at - byte);
      WriteMem(m', at - byte, 4, StoreLeftValue(value, reg, byte))
  }

  /** The same virtual bytes, on the same pages. */
  ghost predicate SameBytes(m: Memory, m': Memory) {
    && ValidMemory(m) && ValidMemory(m')
    && (forall x: Address :: ByteAt(m', x) == ByteAt(m, x))
    && (Injective(m.mmu) ==> Injective(m'.mmu))
  }

  /** Reading changes no byte and no mapping. */
  lemma ReadKeeps(m: Memory, u: Address)
    requires ValidMemory(m) && ReadMem(m, u, 4).Got?
    ensures var m' := ReadMem(m, u, 4).memory;
      ValidMemory(m') && SameFrames(m.mmu, m'.mmu) && m'.bytes == m.bytes && SameBytes(m, m')
  {
    hide FrameOf, Translate;
    TranslateKeepsFrames(m.mmu, u, 4, false);
    var m' := ReadMem(m, u, 4).memory;
    forall x: Address
      ensures ByteAt(m', x) == ByteAt(m, x)
    {
      assert FrameOf(m'.mmu, x / PAGE_SIZE) == FrameOf(m.mmu, x / PAGE_SIZE);
    }
  }

  /** A word is read, and the same word with the new bytes is written. */
  lemma Rewritten(m: Memory, u: Address, value: Word, x: Address)
    requires ValidMemory(m) && Injective(m.mmu) && ReadMem(m, u, 4).Got?
    requires WriteMem(ReadMem(m, u, 4).memory, u, 4, value).Put?
    ensures var m' := WriteMem(ReadMem(m, u, 4).memory, u, 4, value).memory;
      && ValidMemory(m') && Injective(m'.mmu)
      && ByteAt(m', x) == (if u <= x < u + 4 then Some(ByteOf(value, x - u)) else ByteAt(m, x))
      && (u <= x < u + 4 ==> ByteAt(m, x) == Some(ByteOf(ReadMem(m, u, 4).value, x - u)))
  {
    hide ReadMem, WriteMem, ByteAt, ByteOf, FrameOf;
    ReadKeeps(m, u);
    var m1 := ReadMem(m, u, 4).memory;
    WriteChangesOnly(m1, u, 4, value, x);
    if u <= x < u + 4 {
      ReadGivesBytes(m, u, x - u);
    }
  }

  lemma StoreRightChanges(m: Memory, at: Address, reg: Word, x: Address)
    requires ValidMemory(m) && Injective(m.mmu) && StoreRight(m, at, reg).Put?
    ensures var m' := StoreRight(m, at, reg).memory;
      && ValidMemory(m') && Injective(m'.mmu)
      && ByteAt(m', x) == if at <= x < at - at % 4 + 4 then Some(ByteOf(reg, x - at)) else ByteAt(m, x)
  {
    hide ReadMem, WriteMem, ByteAt, ByteOf, Injective, StoreRightValue;
    var u, byte := at - at % 4, at % 4;
    var value := StoreRightValue(ReadMem(m, u, 4).value, reg, byte);
    ReadKeeps(m, u);
    Rewritten(m, u, value, x);
    if u <= x < u + 4 {
      StoreRightBytes(ReadMem(m, u, 4).value, reg, byte, x - u);
    }
  }

  lemma StoreLeftChanges(m: Memory, at: Address, reg: Word, x: Address)
    requires ValidMemory(m) && Injective(m.mmu) && StoreLeft(m, at, reg).Put?
    ensures var m' := StoreLeft(m, at, reg).memory;
      && ValidMemory(m') && Injective(m'.mmu)
      && ByteAt(m', x) == if at - at % 4 <= x <= at then Some(ByteOf(reg, 3 - (at - x))) else ByteAt(m, x)
  {
    hide ReadMem, WriteMem, ByteAt, ByteOf, Injective, StoreLeftValue;
    var u, byte := at - at % 4, at % 4;
    var value := StoreLeftValue(ReadMem(m, u, 4).value, reg, byte);
    ReadKeeps(m, u);
    Rewritten(m, u, value, x);
    if u <= x < u + 4 {
      StoreLeftBytes(ReadMem(m, u, 4).value, reg, byte, x - u);
    }
  }

  /** How far an address is behind another, addresses wrapping round. */
  function Behind(a: Address, x: Address): nat {
    (x - a) % ADDRESSES
  }

  function Plus(a: Address, k: nat): Address {
    (a + k) % ADDRESSES
  }

  /** SWR at `a` and SWL at `a + 3` together store a word at any address, across a page boundary or
      not: the four bytes there, lowest first, and nothing else. What is only read in between makes no
      difference. */
  lemma UnalignedStore(m: Memory, m1: Memory, a: Address, reg: Word, x: Address)
    requires ValidMemory(m) && Injective(m.mmu) && StoreRight(m, a, reg).Put?
    requires SameBytes(StoreRight(m, a, reg).memory, m1) && StoreLeft(m1, Plus(a, 3), reg).Put?
    ensures var m' := StoreLeft(m1, Plus(a, 3), reg).memory;
      && ValidMemory(m') && Injective(m'.mmu)
      && ByteAt(m', x) == if Behind(a, x) < 4 then Some(ByteOf(reg, Behind(a, x))) else ByteAt(m, x)
  {
    hide StoreRight, StoreLeft, ByteAt, ByteOf, Injective, ValidMemory;
    StoreRightChanges(m, a, reg, x);
    StoreLeftChanges(m1, Plus(a, 3), reg, x);
    HalvesMeet(a, Plus(a, 3), x);
  }

  lemma HalvesMeet(a: Address, hi: Address, x: Address)
    requires hi == Plus(a, 3)
    ensures Behind(a, x) < 4 <==> a <= x < a - a % 4 + 4 || hi - hi % 4 <= x <= hi
    ensures a <= x < a - a % 4 + 4 ==> Behind(a, x) == x - a
    ensures hi - hi % 4 <= x <= hi ==> Behind(a, x) == 3 - (hi - x)
  {
    var q, b := a / 4, a % 4;
    assert a == 4 * q + b;
    if a + 3 >= ADDRESSES {
      assert hi == a + 3 - ADDRESSES;
    }
  }

  // ---------------------------------------------------------------- loads

  /** LWR at `a` and LWL at `a + 3`, the second merging with what the first is about to load, give the
      word at any address, whatever the register held before. */
  lemma UnalignedLoad(m: Memory, m1: Memory, a: Address, reg: Word, k: nat)
    requires SameBytes(m, m1) && k < 4
    requires ReadMem(m, a - a % 4, 4).Got? && ReadMem(m1, Plus(a, 3) - Plus(a, 3) % 4, 4).Got?
    ensures var hi := Plus(a, 3);
      var v1, v2 := ReadMem(m, a - a % 4, 4).value, ReadMem(m1, hi - hi % 4, 4).value;
      ByteAt(m, Plus(a, k)) == Some(ByteOf(LoadLeftValue(LoadRightValue(reg, v1, a % 4), v2, hi % 4), k))
  {
    hide ReadMem, ByteAt, ByteOf, LoadLeftValue, LoadRightValue, ValidMemory;
    var hi := Plus(a, 3);
    var v1, v2 := ReadMem(m, a - a % 4, 4).value, ReadMem(m1, hi - hi % 4, 4).value;
    LoadRightBytes(reg, v1, a % 4, k);
    LoadLeftBytes(LoadRightValue(reg, v1, a % 4), v2, hi % 4, k);
    if k >= 3 - hi % 4 {
      ReadGivesBytes(m1, hi - hi % 4, k + hi % 4 - 3);
      HighHalf(a, hi, k);
    } else {
      LowHalf(a, hi, k);
      ReadGivesBytes(m, a - a % 4, k + a % 4);
    }
  }

  lemma HighHalf(a: Address, hi: Address, k: nat)
    requires hi == Plus(a, 3) && 3 - hi % 4 <= k < 4
    ensures hi - hi % 4 + (k + hi % 4 - 3) == Plus(a, k)
  {
    assert a == 4 * (a / 4) + a % 4;
  }

  lemma LowHalf(a: Address, hi: Address, k: nat)
    requires hi == Plus(a, 3) && k < 3 - hi % 4
    ensures k < 4 - a % 4 && a - a % 4 + (k + a % 4) == Plus(a, k)
  {
    assert a == 4 * (a / 4) + a % 4;
  }
}
