/** Virtual memory of the simulated machine (machine/translate.cc): translation by page table or TLB,
    and little-endian reads and writes of one, two or four bytes. An address is taken as unsigned. */
module Translation {
  import opened Sectors
  import opened Wrappers

  const PAGE_SIZE := 128
  const NUM_PHYS_PAGES := 128
  const MEMORY_SIZE := 16384
  const TLB_SIZE := 4
  const ADDRESSES := 0x1_0000_0000

  type Address = u: int | 0 <= u < 0x1_0000_0000

  datatype Exception =
    SyscallException | PageFaultException | ReadOnlyException | BusErrorException
    | AddressErrorException | OverflowException | IllegalInstrException

  datatype Entry = Entry(virtualPage: Word, physicalPage: Word, valid: bool, readOnly: bool, use: bool, dirty: bool)

  /** The machine has a TLB or a page table, not both. */
  datatype Mmu = Tlb(entries: seq<Entry>) | PageTable(entries: seq<Entry>)

  datatype Memory = Memory(bytes: seq<Byte>, mmu: Mmu)

  predicate ValidMemory(m: Memory) {
    |m.bytes| == MEMORY_SIZE && (m.mmu.Tlb? ==> |m.mmu.entries| == TLB_SIZE)
  }

  // ---------------------------------------------------------------- translation

  datatype Found = Slot(i: nat) | Missing(exception: Exception)

  /** The first valid entry for the page, or the end. */
  function FirstMatch(es: seq<Entry>, vpn: nat, i: nat): (k: nat)
    requires i <= |es|
    ensures i <= k <= |es| && (k < |es| ==> es[k].valid && es[k].virtualPage == vpn)
    ensures forall j :: i <= j < k ==> !(es[j].valid && es[j].virtualPage == vpn)
    decreases |es| - i
  {
    if i == |es| || (es[i].valid && es[i].virtualPage == vpn) then i else FirstMatch(es, vpn, i + 1)
  }

  function FindEntry(mmu: Mmu, vpn: nat): (f: Found)
    ensures f.Slot? ==> f.i < |mmu.entries| && mmu.entries[f.i].valid
  {
    match mmu
    case PageTable(es) =>
      if vpn >= |es| then Missing(AddressErrorException)
      else if !es[vpn].valid then Missing(PageFaultException)
      else Slot(vpn)
    case Tlb(es) =>
      var i := FirstMatch(es, vpn, 0);
      if i == |es| then Missing(PageFaultException) else Slot(i)
  }

  predicate Misaligned(u: Address, size: nat) {
    (size == 4 && u % 4 != 0) || (size == 2 && u % 2 != 0)
  }

  /** `unsigned int pageFrame`: a negative frame number is too big. */
  predicate LegalFrame(e: Entry) {
    0 <= e.physicalPage < NUM_PHYS_PAGES
  }

  function Used(mmu: Mmu, i: nat, writing: bool): Mmu
    requires i < |mmu.entries|
  {
    var e := mmu.entries[i];
    mmu.(entries := mmu.entries[i := e.(use := true, dirty := e.dirty || writing)])
  }

  datatype Outcome = Physical(address: nat, mmu: Mmu) | Fault(exception: Exception)

  function Translate(mmu: Mmu, u: Address, size: nat, writing: bool): Outcome {
    if Misaligned(u, size) then Fault(AddressErrorException)
    else
      match FindEntry(mmu, u / PAGE_SIZE)
      case Missing(exception) => Fault(exception)
      case Slot(i) =>
        var e := mmu.entries[i];
        if e.readOnly && writing then Fault(ReadOnlyException)
        else if !LegalFrame(e) then Fault(BusErrorException)
        else Physical(e.physicalPage * PAGE_SIZE + u % PAGE_SIZE, Used(mmu, i, writing))
  }

  /** An access that is translated stays in its frame, and in physical memory. */
  lemma StaysInFrame(mmu: Mmu, u: Address, size: nat, writing: bool)
    requires (size == 1 || size == 2 || size == 4) && Translate(mmu, u, size, writing).Physical?
    ensures var a := Translate(mmu, u, size, writing).address;
      && a + size <= MEMORY_SIZE && a / PAGE_SIZE == (a + size - 1) / PAGE_SIZE
      && a % PAGE_SIZE == u % PAGE_SIZE && u % PAGE_SIZE + size <= PAGE_SIZE
  {
    hide FindEntry, Used;
    AlignedInPage(u, size);
  }

  lemma AlignedInPage(u: Address, size: nat)
    requires (size == 1 || size == 2 || size == 4) && !Misaligned(u, size)
    ensures u % PAGE_SIZE + size <= PAGE_SIZE
  {
    var o, q := u % PAGE_SIZE, u / PAGE_SIZE;
    assert u == 128 * q + o;
    if size == 4 {
      InPage(u / 4, 4, 32, q, o);
    } else if size == 2 {
      InPage(u / 2, 2, 64, q, o);
    }
  }

  lemma InPage(w: nat, size: nat, perPage: nat, q: nat, o: nat)
    requires (size == 4 && perPage == 32) || (size == 2 && perPage == 64)
    requires size * w == 128 * q + o && o < 128
    ensures o + size <= 128
  {
    assert o == size * (w - perPage * q);
  }

  // ---------------------------------------------------------------- TLB and page table

  /** Every valid TLB entry is a copy of its page's entry in the page table. */
  ghost predicate Agrees(tlb: seq<Entry>, table: seq<Entry>) {
    forall i :: 0 <= i < |tlb| && tlb[i].valid ==>
      && 0 <= tlb[i].virtualPage < |table| && table[tlb[i].virtualPage].valid
      && table[tlb[i].virtualPage].physicalPage == tlb[i].physicalPage
      && table[tlb[i].virtualPage].readOnly == tlb[i].readOnly
  }

  /** A TLB that agrees with the page table gives a page fault or what the page table gives. */
  lemma TlbRefinesPageTable(tlb: seq<Entry>, table: seq<Entry>, u: Address, size: nat, writing: bool)
    requires Agrees(tlb, table)
    ensures var t, p := Translate(Tlb(tlb), u, size, writing), Translate(PageTable(table), u, size, writing);
      || t == Fault(PageFaultException)
      || (t.Fault? && p == t)
      || (t.Physical? && p.Physical? && t.address == p.address)
    ensures FirstMatch(tlb, u / PAGE_SIZE, 0) < |tlb| ==>
              Translate(Tlb(tlb), u, size, writing) != Fault(PageFaultException)
  {
    hide Misaligned, Used;
    var i := FirstMatch(tlb, u / PAGE_SIZE, 0);
    if i < |tlb| {
      assert tlb[i].valid && tlb[i].virtualPage == u / PAGE_SIZE;
    }
  }

  // ---------------------------------------------------------------- which entry, which bits, which fault

  datatype Access = Access(u: Address, size: nat, writing: bool)

  /** Entry `i` is the one for a virtual page: its place in the page table is the page number; in the TLB no
      valid entry before it has that number. */
  ghost predicate EntryFor(mmu: Mmu, vpn: nat, i: nat) {
    && i < |mmu.entries| && mmu.entries[i].valid
    && if mmu.PageTable? then i == vpn
       else
         && mmu.entries[i].virtualPage == vpn
         && forall j :: 0 <= j < i && mmu.entries[j].valid ==> mmu.entries[j].virtualPage != vpn
  }

  /** Entry `i` serves an access. */
  ghost predicate Serves(mmu: Mmu, a: Access, i: nat) {
    && LegalSize(a.size) && a.u % a.size == 0 && EntryFor(mmu, a.u / PAGE_SIZE, i)
    && !(mmu.entries[i].readOnly && a.writing) && 0 <= mmu.entries[i].physicalPage < NUM_PHYS_PAGES
  }

  /** The entry as it is once it has served accesses, written ones among them or not. */
  function Marked(e: Entry, used: bool, written: bool): Entry {
    e.(use := e.use || used, dirty := e.dirty || written)
  }

  lemma EntryIsFound(mmu: Mmu, vpn: nat, i: nat)
    ensures EntryFor(mmu, vpn, i) <==> FindEntry(mmu, vpn) == Slot(i)
  {
    if mmu.Tlb? {
      var k := FirstMatch(mmu.entries, vpn, 0);
      assert k < |mmu.entries| ==> mmu.entries[k].valid;
      assert EntryFor(mmu, vpn, i) ==> mmu.entries[i].valid && mmu.entries[i].virtualPage == vpn;
    }
  }

  /** An access is translated exactly if some entry serves it, to the frame of that entry, whose use bit is
      then set, and its dirty bit too if the access writes. */
  lemma TranslatedByEntry(mmu: Mmu, a: Access, i: nat)
    requires LegalSize(a.size)
    ensures Serves(mmu, a, i) ==> i < |mmu.entries|
    ensures Serves(mmu, a, i) ==>
              Translate(mmu, a.u, a.size, a.writing) ==
              Physical(mmu.entries[i].physicalPage * PAGE_SIZE + a.u % PAGE_SIZE,
                       mmu.(entries := mmu.entries[i := Marked(mmu.entries[i], true, a.writing)]))
    ensures Translate(mmu, a.u, a.size, a.writing).Physical? ==> exists k :: Serves(mmu, a, k)
  {
    hide FindEntry, EntryFor;
    var found := FindEntry(mmu, a.u / PAGE_SIZE);
    EntryIsFound(mmu, a.u / PAGE_SIZE, i);
    if found.Slot? && Translate(mmu, a.u, a.size, a.writing).Physical? {
      EntryIsFound(mmu, a.u / PAGE_SIZE, found.i);
      assert Serves(mmu, a, found.i);
    }
  }

  ghost predicate ReadOnlyFor(mmu: Mmu, vpn: nat, i: nat) { EntryFor(mmu, vpn, i) && mmu.entries[i].readOnly }

  /** Which fault it is otherwise: of a page outside the page table or an address that is not a multiple of
      the size, of a page without entry, of a write to a page that is for reading, of a frame that is not
      there, and in this order. */
  lemma FaultOf(mmu: Mmu, a: Access) returns (fault: Exception)
    requires LegalSize(a.size) && forall i :: !Serves(mmu, a, i)
    ensures Translate(mmu, a.u, a.size, a.writing) == Fault(fault)
    ensures fault == AddressErrorException <==>
            a.u % a.size != 0 || (mmu.PageTable? && a.u / PAGE_SIZE >= |mmu.entries|)
    ensures fault == PageFaultException <==>
            && a.u % a.size == 0 && (mmu.PageTable? ==> a.u / PAGE_SIZE < |mmu.entries|)
            && forall i :: !EntryFor(mmu, a.u / PAGE_SIZE, i)
    ensures fault == ReadOnlyException <==>
            a.u % a.size == 0 && a.writing && exists i: nat :: ReadOnlyFor(mmu, a.u / PAGE_SIZE, i)
    ensures fault in {AddressErrorException, PageFaultException, ReadOnlyException, BusErrorException}
  {
    hide FindEntry, EntryFor;
    var vpn := a.u / PAGE_SIZE;
    var found := FindEntry(mmu, vpn);
    forall i: nat
      ensures EntryFor(mmu, vpn, i) <==> found == Slot(i)
    {
      EntryIsFound(mmu, vpn, i);
    }
    if found.Slot? {
      assert EntryFor(mmu, vpn, found.i) && !Serves(mmu, a, found.i);
      assert ReadOnlyFor(mmu, vpn, found.i) <==> mmu.entries[found.i].readOnly;
    }
    fault := Translate(mmu, a.u, a.size, a.writing).exception;
    MissingIs(mmu, vpn);
  }

  lemma MissingIs(mmu: Mmu, vpn: nat)
    ensures FindEntry(mmu, vpn).Missing? ==>
              FindEntry(mmu, vpn).exception ==
              if mmu.PageTable? && vpn >= |mmu.entries| then AddressErrorException else PageFaultException
    ensures mmu.PageTable? && vpn >= |mmu.entries| ==> FindEntry(mmu, vpn).Missing?
  {
  }

  /** The table or TLB after some accesses, those that fault among them. */
  function AfterAll(mmu: Mmu, accesses: seq<Access>): Mmu {
    if accesses == [] then mmu
    else
      var before, a := AfterAll(mmu, accesses[..|accesses| - 1]), accesses[|accesses| - 1];
      match Translate(before, a.u, a.size, a.writing)
      case Physical(_, after) => after
      case Fault(_) => before
  }

  ghost predicate UsedBy(mmu: Mmu, accesses: seq<Access>, i: nat) {
    exists k :: 0 <= k < |accesses| && Serves(mmu, accesses[k], i)
  }

  ghost predicate WrittenBy(mmu: Mmu, accesses: seq<Access>, i: nat) {
    exists k :: 0 <= k < |accesses| && accesses[k].writing && Serves(mmu, accesses[k], i)
  }

  /** The use and dirty bits are a record of the past: after any accesses exactly those entries have one
      more set that served an access, or a write, and nothing else has changed. */
  lemma {:induction false} BitsRecordAccesses(mmu: Mmu, accesses: seq<Access>)
    requires forall k :: 0 <= k < |accesses| ==> LegalSize(accesses[k].size)
    ensures var mmu' := AfterAll(mmu, accesses);
      && mmu'.Tlb? == mmu.Tlb? && |mmu'.entries| == |mmu.entries|
      && forall i :: 0 <= i < |mmu.entries| ==>
           mmu'.entries[i] == Marked(mmu.entries[i], UsedBy(mmu, accesses, i), WrittenBy(mmu, accesses, i))
  {
    hide Serves, Translate;
    if accesses != [] {
      var n := |accesses| - 1;
      var rest, a := accesses[..n], accesses[n];
      BitsRecordAccesses(mmu, rest);
      var before := AfterAll(mmu, rest);
      forall i: nat
        ensures Serves(before, a, i) <==> Serves(mmu, a, i)
      {
        SameServes(mmu, before, a, i);
      }
      forall i | 0 <= i < |mmu.entries|
        ensures UsedBy(mmu, accesses, i) <==> UsedBy(mmu, rest, i) || Serves(mmu, a, i)
        ensures WrittenBy(mmu, accesses, i) <==> WrittenBy(mmu, rest, i) || (a.writing && Serves(mmu, a, i))
      {
        OneMoreAccess(mmu, accesses, i);
      }
      OneAccess(before, a);
    }
  }

  /** Marked entries serve what they served before. */
  lemma SameServes(mmu: Mmu, mmu': Mmu, a: Access, i: nat)
    requires mmu'.Tlb? == mmu.Tlb? && |mmu'.entries| == |mmu.entries|
    requires forall j :: 0 <= j < |mmu.entries| ==>
               mmu'.entries[j] == mmu.entries[j].(use := mmu'.entries[j].use, dirty := mmu'.entries[j].dirty)
    ensures Serves(mmu', a, i) <==> Serves(mmu, a, i)
  {
    assert forall j :: 0 <= j < |mmu.entries| ==>
      && mmu'.entries[j].valid == mmu.entries[j].valid && mmu'.entries[j].virtualPage == mmu.entries[j].virtualPage
      && mmu'.entries[j].readOnly == mmu.entries[j].readOnly
      && mmu'.entries[j].physicalPage == mmu.entries[j].physicalPage;
  }

  lemma OneMoreAccess(mmu: Mmu, accesses: seq<Access>, i: nat)
    requires accesses != []
    ensures var n := |accesses| - 1;
      && (UsedBy(mmu, accesses, i) <==> UsedBy(mmu, accesses[..n], i) || Serves(mmu, accesses[n], i))
      && (WrittenBy(mmu, accesses, i) <==>
            WrittenBy(mmu, accesses[..n], i) || (accesses[n].writing && Serves(mmu, accesses[n], i)))
  {
    hide Serves;
    var n := |accesses| - 1;
    if UsedBy(mmu, accesses[..n], i) {
      var k :| 0 <= k < n && Serves(mmu, accesses[..n][k], i);
      assert accesses[k] == accesses[..n][k];
    }
    if WrittenBy(mmu, accesses[..n], i) {
      var k :| 0 <= k < n && accesses[..n][k].writing && Serves(mmu, accesses[..n][k], i);
      assert accesses[k] == accesses[..n][k];
    }
    assert forall k :: 0 <= k < n ==> accesses[k] == accesses[..n][k];
  }

  /** One access marks the entry that serves it, if any. */
  lemma OneAccess(mmu: Mmu, a: Access)
    requires LegalSize(a.size)
    ensures match Translate(mmu, a.u, a.size, a.writing)
      case Physical(_, mmu') =>
        && mmu'.Tlb? == mmu.Tlb? && |mmu'.entries| == |mmu.entries|
        && forall i :: 0 <= i < |mmu.entries| ==>
             mmu'.entries[i] == Marked(mmu.entries[i], Serves(mmu, a, i), a.writing && Serves(mmu, a, i))
      case Fault(_) => forall i :: !Serves(mmu, a, i)
  {
    hide Serves, Translate;
    if Translate(mmu, a.u, a.size, a.writing).Physical? {
      TranslatedByEntry(mmu, a, 0);
      var k :| Serves(mmu, a, k);
      TranslatedByEntry(mmu, a, k);
      forall i: nat | Serves(mmu, a, i)
        ensures i == k
      {
        ServesOne(mmu, a, i, k);
      }
    } else {
      forall i: nat
        ensures !Serves(mmu, a, i)
      {
        TranslatedByEntry(mmu, a, i);
      }
    }
  }

  lemma ServesOne(mmu: Mmu, a: Access, i: nat, k: nat)
    requires Serves(mmu, a, i) && Serves(mmu, a, k)
    ensures i == k
  {
    hide FindEntry;
    EntryIsFound(mmu, a.u / PAGE_SIZE, i);
    EntryIsFound(mmu, a.u / PAGE_SIZE, k);
  }

  // ---------------------------------------------------------------- virtual bytes

  /** The frame of a virtual page. */
  function FrameOf(mmu: Mmu, vpn: nat): Option<Word> {
    match FindEntry(mmu, vpn)
    case Slot(i) => if LegalFrame(mmu.entries[i]) then Some(mmu.entries[i].physicalPage) else None
    case Missing(_) => None
  }

  /** The byte at a virtual address, if the page is mapped. */
  function ByteAt(m: Memory, u: Address): Option<Byte>
    requires ValidMemory(m)
  {
    match FrameOf(m.mmu, u / PAGE_SIZE)
    case Some(f) => if 0 <= f < NUM_PHYS_PAGES then Some(m.bytes[f * PAGE_SIZE + u % PAGE_SIZE]) else None
    case None => None
  }

  /** No frame holds two pages. */
  ghost predicate Injective(mmu: Mmu) {
    forall v: nat, w: nat :: FrameOf(mmu, v).Some? && FrameOf(mmu, v) == FrameOf(mmu, w) ==> v == w
  }

  lemma FrameIsLegal(mmu: Mmu, vpn: nat)
    requires FrameOf(mmu, vpn).Some?
    ensures 0 <= FrameOf(mmu, vpn).value < NUM_PHYS_PAGES
  {
  }

  lemma {:induction false} FirstMatchUsed(es: seq<Entry>, vpn: nat, i: nat, k: nat, e: Entry)
    requires i <= |es| && k < |es| && e.valid == es[k].valid && e.virtualPage == es[k].virtualPage
    ensures FirstMatch(es[k := e], vpn, i) == FirstMatch(es, vpn, i)
    decreases |es| - i
  {
    if i < |es| {
      FirstMatchUsed(es, vpn, i + 1, k, e);
    }
  }

  /** Use and dirty bits have no part in translation. */
  lemma UsedKeepsFrames(mmu: Mmu, i: nat, writing: bool, vpn: nat)
    requires i < |mmu.entries|
    ensures FrameOf(Used(mmu, i, writing), vpn) == FrameOf(mmu, vpn)
  {
    var e := mmu.entries[i];
    if mmu.Tlb? {
      FirstMatchUsed(mmu.entries, vpn, 0, i, e.(use := true, dirty := e.dirty || writing));
    }
  }

  ghost predicate SameFrames(mmu: Mmu, mmu': Mmu) {
    forall v: nat :: FrameOf(mmu', v) == FrameOf(mmu, v)
  }

  lemma TranslateKeepsFrames(mmu: Mmu, u: Address, size: nat, writing: bool)
    requires Translate(mmu, u, size, writing).Physical?
    ensures SameFrames(mmu, Translate(mmu, u, size, writing).mmu)
    ensures Translate(mmu, u, size, writing).mmu.Tlb? == mmu.Tlb?
    ensures |Translate(mmu, u, size, writing).mmu.entries| == |mmu.entries|
    ensures FrameOf(mmu, u / PAGE_SIZE).Some?
    ensures Translate(mmu, u, size, writing).address == FrameOf(mmu, u / PAGE_SIZE).value * PAGE_SIZE + u % PAGE_SIZE
  {
    hide FrameOf;
    FrameOfTranslated(mmu, u, size, writing);
    var i := FindEntry(mmu, u / PAGE_SIZE).i;
    forall v: nat
      ensures FrameOf(Used(mmu, i, writing), v) == FrameOf(mmu, v)
    {
      UsedKeepsFrames(mmu, i, writing, v);
    }
  }

  lemma FrameOfTranslated(mmu: Mmu, u: Address, size: nat, writing: bool)
    requires Translate(mmu, u, size, writing).Physical?
    ensures FindEntry(mmu, u / PAGE_SIZE).Slot?
    ensures FrameOf(mmu, u / PAGE_SIZE) == Some(mmu.entries[FindEntry(mmu, u / PAGE_SIZE).i].physicalPage)
  {
  }

  // ---------------------------------------------------------------- reading and writing

  predicate LegalSize(size: nat) { size == 1 || size == 2 || size == 4 }

  /** One byte is a signed char, two bytes are unsigned. */
  function ValueAt(bytes: seq<Byte>, a: nat, size: nat): Word
    requires LegalSize(size) && a + size <= |bytes|
  {
    if size == 1 then (if bytes[a] < 128 then bytes[a] else bytes[a] - 256)
    else if size == 2 then bytes[a] + 256 * bytes[a + 1]
    else WordOf(bytes[a], bytes[a + 1], bytes[a + 2], bytes[a + 3])
  }

  /** What is left of a value that is stored in so many bytes and read back. */
  function Narrow(value: Word, size: nat): Word
    requires LegalSize(size)
  {
    var u := Unsigned(value);
    if size == 1 then (if u % 256 < 128 then u % 256 else u % 256 - 256)
    else if size == 2 then u % 65536
    else value
  }

  function Stored(bytes: seq<Byte>, a: nat, size: nat, value: Word): (stored: seq<Byte>)
    requires LegalSize(size) && a + size <= |bytes|
    ensures |stored| == |bytes|
    ensures forall i :: 0 <= i < |bytes| ==> stored[i] == if a <= i < a + size then ByteOf(value, i - a) else bytes[i]
  {
    if size == 1 then bytes[a := ByteOf(value, 0)]
    else if size == 2 then bytes[a := ByteOf(value, 0)][a + 1 := ByteOf(value, 1)]
    else bytes[a := ByteOf(value, 0)][a + 1 := ByteOf(value, 1)][a + 2 := ByteOf(value, 2)][a + 3 := ByteOf(value, 3)]
  }

  datatype ReadResult = Got(value: Word, memory: Memory) | ReadFault(exception: Exception)

  datatype WriteResult = Put(memory: Memory) | WriteFault(exception: Exception)

  function ReadMem(m: Memory, u: Address, size: nat): ReadResult
    requires ValidMemory(m) && LegalSize(size)
  {
    match Translate(m.mmu, u, size, false)
    case Fault(exception) => ReadFault(exception)
    case Physical(a, mmu) =>
      StaysInFrame(m.mmu, u, size, false);
      Got(ValueAt(m.bytes, a, size), m.(mmu := mmu))
  }

  function WriteMem(m: Memory, u: Address, size: nat, value: Word): WriteResult
    requires ValidMemory(m) && LegalSize(size)
  {
    match Translate(m.mmu, u, size, true)
    case Fault(exception) => WriteFault(exception)
    case Physical(a, mmu) =>
      StaysInFrame(m.mmu, u, size, true);
      Put(Memory(Stored(m.bytes, a, size, value), mmu))
  }

  lemma NarrowStored(bytes: seq<Byte>, a: nat, size: nat, value: Word)
    requires LegalSize(size) && a + size <= |bytes|
    ensures ValueAt(Stored(bytes, a, size, value), a, size) == Narrow(value, size)
  {
    hide Stored;
    if size == 4 {
      WordOfBytes(value);
    } else if size == 2 {
      var u := Unsigned(value);
      assert u % 65536 == u % 256 + 256 * (u / 256 % 256);
    }
  }

  /** What is written is read back, as much of it as was written. */
  lemma ReadAfterWrite(m: Memory, u: Address, size: nat, value: Word)
    requires ValidMemory(m) && LegalSize(size) && WriteMem(m, u, size, value).Put?
    ensures var m' := WriteMem(m, u, size, value).memory;
      ValidMemory(m') && ReadMem(m', u, size).Got? && ReadMem(m', u, size).value == Narrow(value, size)
  {
    hide Stored, ValueAt, Narrow, FrameOf;
    StaysInFrame(m.mmu, u, size, true);
    TranslateKeepsFrames(m.mmu, u, size, true);
    var o := Translate(m.mmu, u, size, true);
    assert FrameOf(o.mmu, u / PAGE_SIZE) == FrameOf(m.mmu, u / PAGE_SIZE);
    MappedIsRead(o.mmu, u, size);
    NarrowStored(m.bytes, o.address, size, value);
  }

  /** An aligned read of a mapped page succeeds. */
  lemma MappedIsRead(mmu: Mmu, u: Address, size: nat)
    requires FrameOf(mmu, u / PAGE_SIZE).Some? && !Misaligned(u, size)
    ensures Translate(mmu, u, size, false).Physical?
    ensures Translate(mmu, u, size, false).address == FrameOf(mmu, u / PAGE_SIZE).value * PAGE_SIZE + u % PAGE_SIZE
  {
  }

  /** The page and the frame of the bytes of an access. */
  lemma BytesOfAccess(mmu: Mmu, u: Address, size: nat, writing: bool, x: Address)
    requires LegalSize(size) && Translate(mmu, u, size, writing).Physical? && u <= x < u + size
    ensures x / PAGE_SIZE == u / PAGE_SIZE
    ensures FrameOf(mmu, u / PAGE_SIZE).Some?
    ensures FrameOf(mmu, u / PAGE_SIZE).value * PAGE_SIZE + x % PAGE_SIZE ==
              Translate(mmu, u, size, writing).address + (x - u)
  {
    hide FrameOf;
    StaysInFrame(mmu, u, size, writing);
    TranslateKeepsFrames(mmu, u, size, writing);
    SamePage(u, x);
  }

  lemma SamePage(u: Address, x: Address)
    requires u <= x && u % PAGE_SIZE + (x - u) < PAGE_SIZE
    ensures x / PAGE_SIZE == u / PAGE_SIZE && x % PAGE_SIZE == u % PAGE_SIZE + (x - u)
  {
    assert x == PAGE_SIZE * (u / PAGE_SIZE) + (u % PAGE_SIZE + (x - u));
  }

  /** Where frames hold one page each, a write changes the virtual bytes that were asked for and no
      others. */
  lemma WriteChangesOnly(m: Memory, u: Address, size: nat, value: Word, x: Address)
    requires ValidMemory(m) && LegalSize(size) && Injective(m.mmu) && WriteMem(m, u, size, value).Put?
    ensures var m' := WriteMem(m, u, size, value).memory;
      && ValidMemory(m') && SameFrames(m.mmu, m'.mmu)
      && ByteAt(m', x) == if u <= x < u + size then Some(ByteOf(value, x - u)) else ByteAt(m, x)
  {
    hide Stored, FrameOf, Translate, ByteOf;
    var o := Translate(m.mmu, u, size, true);
    StaysInFrame(m.mmu, u, size, true);
    TranslateKeepsFrames(m.mmu, u, size, true);
    assert FrameOf(o.mmu, x / PAGE_SIZE) == FrameOf(m.mmu, x / PAGE_SIZE);
    if FrameOf(m.mmu, x / PAGE_SIZE).Some? {
      FrameIsLegal(m.mmu, x / PAGE_SIZE);
      var at := FrameOf(m.mmu, x / PAGE_SIZE).value * PAGE_SIZE + x % PAGE_SIZE;
      if u <= x < u + size {
        BytesOfAccess(m.mmu, u, size, true, x);
      } else {
        if o.address <= at < o.address + size {
          OtherByte(m.mmu, u, size, x, at);
        }
      }
    } else if u <= x < u + size {
      BytesOfAccess(m.mmu, u, size, true, x);
    }
  }

  lemma OtherByte(mmu: Mmu, u: Address, size: nat, x: Address, at: nat)
    requires LegalSize(size) && Injective(mmu) && Translate(mmu, u, size, true).Physical?
    requires FrameOf(mmu, x / PAGE_SIZE).Some? && at == FrameOf(mmu, x / PAGE_SIZE).value * PAGE_SIZE + x % PAGE_SIZE
    requires var a := Translate(mmu, u, size, true).address; a <= at < a + size
    ensures u <= x < u + size
  {
    hide FrameOf, Translate;
    StaysInFrame(mmu, u, size, true);
    TranslateKeepsFrames(mmu, u, size, true);
    FrameIsLegal(mmu, x / PAGE_SIZE);
    FrameIsLegal(mmu, u / PAGE_SIZE);
    var f, g := FrameOf(mmu, x / PAGE_SIZE).value, FrameOf(mmu, u / PAGE_SIZE).value;
    SameFrame(f, g, x % PAGE_SIZE, u % PAGE_SIZE, size);
    assert x / PAGE_SIZE == u / PAGE_SIZE;
    assert x == PAGE_SIZE * (x / PAGE_SIZE) + x % PAGE_SIZE && u == PAGE_SIZE * (u / PAGE_SIZE) + u % PAGE_SIZE;
  }

  lemma SameFrame(f: int, g: int, xo: nat, uo: nat, size: nat)
    requires xo < PAGE_SIZE && uo + size <= PAGE_SIZE
    requires g * PAGE_SIZE + uo <= f * PAGE_SIZE + xo < g * PAGE_SIZE + uo + size
    ensures f == g && uo <= xo < uo + size
  {
  }

  /** A word that is read is the four virtual bytes at its address. */
  lemma ReadGivesBytes(m: Memory, u: Address, k: nat)
    requires ValidMemory(m) && ReadMem(m, u, 4).Got? && k < 4
    ensures u + k < ADDRESSES && ByteAt(m, u + k) == Some(ByteOf(ReadMem(m, u, 4).value, k))
  {
    hide FrameOf, ByteOf;
    StaysInFrame(m.mmu, u, 4, false);
    WordFits(m.mmu, u);
    BytesOfAccess(m.mmu, u, 4, false, u + k);
    FrameIsLegal(m.mmu, u / PAGE_SIZE);
    var a := Translate(m.mmu, u, 4, false).address;
    BytesOfWord(m.bytes[a], m.bytes[a + 1], m.bytes[a + 2], m.bytes[a + 3]);
  }

  /** The same for a read of any size; a byte is a signed number, and a half word an unsigned one. */
  lemma ReadGivesEachByte(m: Memory, u: Address, size: nat, k: nat)
    requires ValidMemory(m) && LegalSize(size) && ReadMem(m, u, size).Got? && k < size
    ensures u + k < ADDRESSES && ByteAt(m, u + k) == Some(ByteOf(ReadMem(m, u, size).value, k))
    ensures size == 1 ==> -0x80 <= ReadMem(m, u, size).value < 0x80
    ensures size == 2 ==> 0 <= ReadMem(m, u, size).value < 0x1_0000
  {
    hide FrameOf, ByteOf;
    if size == 4 {
      ReadGivesBytes(m, u, k);
    } else {
      StaysInFrame(m.mmu, u, size, false);
      InAddresses(u, size, k);
      BytesOfAccess(m.mmu, u, size, false, u + k);
      FrameIsLegal(m.mmu, u / PAGE_SIZE);
      var a := Translate(m.mmu, u, size, false).address;
      BytesOfPart(m.bytes, a, size);
    }
  }

  lemma InAddresses(u: Address, size: nat, k: nat)
    requires u % PAGE_SIZE + size <= PAGE_SIZE && k < size
    ensures u + k < ADDRESSES
  {
  }

  lemma BytesOfPart(bytes: seq<Byte>, a: nat, size: nat)
    requires (size == 1 || size == 2) && a + size <= |bytes|
    ensures forall k :: 0 <= k < size ==> ByteOf(ValueAt(bytes, a, size), k) == bytes[a + k]
  {
  }

  lemma WordFits(mmu: Mmu, u: Address)
    requires Translate(mmu, u, 4, false).Physical?
    ensures u % 4 == 0 && u + 3 < ADDRESSES
  {
  }

  lemma BytesOfWord(b0: Byte, b1: Byte, b2: Byte, b3: Byte)
    ensures var w := WordOf(b0, b1, b2, b3);
      ByteOf(w, 0) == b0 && ByteOf(w, 1) == b1 && ByteOf(w, 2) == b2 && ByteOf(w, 3) == b3
  {
    var u := b0 + 256 * b1 + 65536 * b2 + 16777216 * b3;
    LowByte(u, b1 + 256 * b2 + 65536 * b3, b0);
    LowByte(u / 256, b2 + 256 * b3, b1);
    LowByte(u / 256 / 256, b3, b2);
    Shifts(u);
  }

  lemma LowByte(u: nat, rest: nat, low: Byte)
    requires u == 256 * rest + low
    ensures u / 256 == rest && u % 256 == low
  {
  }

  lemma Shifts(u: nat)
    ensures u / 65536 == u / 256 / 256 && u / 16777216 == u / 256 / 256 / 256
  {
  }
}
