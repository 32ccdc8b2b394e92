/** File headers (filesys/filehdr.cc). A header has 30 slots for double-indirect blocks. One
    double-indirect block reaches 1024 data sectors, as many as the disk has, so a file that is in
    order uses slot 0 only. */
module FileHeaders {
  import opened Sectors
  import opened Bitmaps
  import opened Blocks

  const NUM_DIRECT := 30  // (SECTOR_SIZE - 2 * sizeof(int)) / sizeof(int)

  /** A file: its length in bytes, the sector of its double-indirect block (if it has data), its
      indirect blocks and its data sectors in order. */
  datatype File = File(length: int, root: int, index: seq<int>, data: seq<int>)

  const EMPTY_FILE := File(0, -1, [], [])

  ghost function SlotsOf(f: File): (slots: seq<int>)
    ensures |slots| == NUM_DIRECT
  {
    [if f.data == [] then -1 else f.root] + seq(NUM_DIRECT - 1, _ => -1)
  }

  /** The sectors of a file other than that of its header. */
  ghost function SectorsOf(f: File): seq<int> {
    if f.data == [] then [] else f.data + f.index + [f.root]
  }

  /** A header with `slots` and `numBytes` stands for `f` on this disk and map. */
  ghost predicate FileHeld(slots: seq<int>, numBytes: int, disk: seq<Sector>, bits: seq<bool>, f: File) {
    && |disk| == |bits| == NUM_SECTORS
    && slots == SlotsOf(f)
    && numBytes == f.length && 0 <= f.length <= SECTOR_SIZE * |f.data|
    && if f.data == [] then f.index == [] && f.root == -1 else
         && 0 <= f.root < NUM_SECTORS && bits[f.root]
         && f.root !in f.index && f.root !in f.data
         && TreeHeld(Words(disk[f.root]), disk, bits, f.index, f.data)
  }

  /** The sectors that a file needs for its next `n` data sectors. */
  function Need(f: File, n: int): int
    requires n >= 0
  {
    n + NewIndex(|f.data|, n) + if f.data == [] && n > 0 then 1 else 0
  }

  /** `g` is `f` with `n` more data sectors and `fileSize` more bytes, in the sectors `taken`. */
  ghost predicate FileGrown(f: File, g: File, fileSize: int, n: int, taken: seq<int>) {
    && g.length == f.length + fileSize
    && |g.data| == |f.data| + n
    && f.data <= g.data && f.index <= g.index
    && (f.data != [] ==> g.root == f.root)
    && Grown(SectorsOf(f), SectorsOf(g), taken)
  }

  /** `Need` in numbers: for a file of `have` data sectors. */
  function NeedAfter(have: nat, n: nat): (need: nat)
    ensures need >= n
  {
    IndexMonotone(have, n);
    n + NewIndex(have, n) + if have == 0 && n > 0 then 1 else 0
  }

  /** Whether an allocation that finds room for its `n` data sectors, but not for the index sectors, comes
      to an end: the first slot of the header leaves over a sector for each of the others. */
  predicate GoesOn(have: nat, clear: int, n: int) {
    NUM_DIRECT - 1 <= LeftOver(have, clear - (if have == 0 then 1 else 0), n)
  }

  // ---------------------------------------------------------------- properties of a file in order

  /** Every byte of the file has a data sector; two bytes share it exactly when they lie in the
      same block of 128 bytes; and it is never an index sector. */
  lemma BlockOfByte(slots: seq<int>, numBytes: int, disk: seq<Sector>, bits: seq<bool>, f: File, o1: int, o2: int)
    requires FileHeld(slots, numBytes, disk, bits, f)
    requires 0 <= o1 < f.length && 0 <= o2 < f.length
    ensures o1 / SECTOR_SIZE < |f.data| && o2 / SECTOR_SIZE < |f.data|
    ensures f.data[o1 / SECTOR_SIZE] == f.data[o2 / SECTOR_SIZE] <==> o1 / SECTOR_SIZE == o2 / SECTOR_SIZE
    ensures f.data[o1 / SECTOR_SIZE] !in f.index && f.data[o1 / SECTOR_SIZE] != f.root
    ensures 0 <= f.data[o1 / SECTOR_SIZE] < NUM_SECTORS && bits[f.data[o1 / SECTOR_SIZE]]
  {
    var b1, b2 := o1 / SECTOR_SIZE, o2 / SECTOR_SIZE;
    assert f.data[b1] in f.data;
  }

  /** The sectors of a file are distinct and marked. */
  lemma SectorsDistinct(slots: seq<int>, numBytes: int, disk: seq<Sector>, bits: seq<bool>, f: File)
    requires FileHeld(slots, numBytes, disk, bits, f)
    ensures Distinct(SectorsOf(f)) && AllMarked(bits, SectorsOf(f))
    ensures |SectorsOf(f)| == if f.data == [] then 0 else |f.data| + |f.index| + 1
  {
    if f.data != [] {
      var s := SectorsOf(f);
      forall i, j | 0 <= i < j < |s|
        ensures s[i] != s[j]
      {
        assert i < |f.data| ==> s[i] == f.data[i] && s[i] in f.data;
        assert |f.data| <= i < |s| - 1 ==> s[i] == f.index[i - |f.data|] && s[i] in f.index;
        assert j < |f.data| ==> s[j] == f.data[j] && s[j] in f.data;
        assert |f.data| <= j < |s| - 1 ==> s[j] == f.index[j - |f.data|] && s[j] in f.index;
      }
    }
  }

  /** A file in order leaves room on the disk: its data sectors and the clear ones are at most
      as many as there are sectors. */
  lemma DataFits(slots: seq<int>, numBytes: int, disk: seq<Sector>, bits: seq<bool>, f: File)
    requires FileHeld(slots, numBytes, disk, bits, f)
    ensures |f.data| + CountClear(bits) <= NUM_SECTORS
  {
    if f.data != [] {
      DistinctMarked(bits, f.data);
    }
  }

  /** No way of growing a file by `n` data sectors does with fewer than `Need(f, n)` clear ones:
      whatever sectors it takes, they are distinct and were clear. */
  lemma NeedIsNecessary(s0: seq<int>, n0: int, d0: seq<Sector>, b0: seq<bool>, f: File,
                        s1: seq<int>, n1: int, d1: seq<Sector>, b1: seq<bool>, g: File, n: int)
    requires FileHeld(s0, n0, d0, b0, f) && FileHeld(s1, n1, d1, b1, g)
    requires n >= 0 && |g.data| == |f.data| + n
    requires f.data <= g.data && f.index <= g.index && (f.data != [] ==> g.root == f.root)
    requires forall x :: x in SectorsOf(g) && x !in SectorsOf(f) ==> !b0[x]
    ensures Need(f, n) <= CountClear(b0)
  {
    hide FileHeld, CountClear, SectorsOf, NewSectors;
    SectorsDistinct(s1, n1, d1, b1, g);
    SlotZero(s0, n0, d0, b0, f);
    SlotZero(s1, n1, d1, b1, g);
    if n > 0 {
      NewSectorsDistinct(f, g);
      DistinctClear(b0, NewSectors(f, g));
    }
  }

  /** Growing a file uses up exactly the sectors that it needs. */
  lemma TakenIsNeed(s0: seq<int>, n0: int, d0: seq<Sector>, b0: seq<bool>, f: File, s1: seq<int>, n1: int,
                    d1: seq<Sector>, b1: seq<bool>, g: File, fileSize: int, n: int, taken: seq<int>)
    requires FileHeld(s0, n0, d0, b0, f) && FileHeld(s1, n1, d1, b1, g)
    requires n >= 0 && FileGrown(f, g, fileSize, n, taken) && Took(b0, b1, taken)
    ensures |taken| == Need(f, n) && CountClear(b1) == CountClear(b0) - Need(f, n)
  {
    hide FileHeld, CountClear, SectorsOf;
    TookCount(b0, b1, taken);
    SectorsDistinct(s0, n0, d0, b0, f);
    SectorsDistinct(s1, n1, d1, b1, g);
    SlotZero(s0, n0, d0, b0, f);
    SlotZero(s1, n1, d1, b1, g);
    OldAndNew(f, g, taken, b0);
    DistinctSameLength(SectorsOf(f) + taken, SectorsOf(g));
  }

  lemma OldAndNew(f: File, g: File, taken: seq<int>, bits: seq<bool>)
    requires Grown(SectorsOf(f), SectorsOf(g), taken) && Distinct(SectorsOf(f)) && Distinct(taken)
    requires AllMarked(bits, SectorsOf(f)) && forall x :: x in taken ==> 0 <= x < |bits| && !bits[x]
    ensures Distinct(SectorsOf(f) + taken)
    ensures forall x :: x in SectorsOf(f) + taken <==> x in SectorsOf(g)
  {
    hide SectorsOf;
    var s := SectorsOf(f);
    forall i, j | 0 <= i < j < |s + taken|
      ensures (s + taken)[i] != (s + taken)[j]
    {
      assert i < |s| ==> (s + taken)[i] in s;
      assert j >= |s| ==> (s + taken)[j] in taken;
    }
  }

  /** The sectors that `g` has more than `f`. */
  ghost function NewSectors(f: File, g: File): seq<int>
    requires |f.data| <= |g.data| && |f.index| <= |g.index|
  {
    g.data[|f.data|..] + g.index[|f.index|..] + if f.data == [] then [g.root] else []
  }

  lemma NewSectorsDistinct(f: File, g: File)
    requires f.data <= g.data && f.index <= g.index && (f.data != [] ==> g.root == f.root) && g.data != []
    requires (f.data == [] ==> f.index == []) && Distinct(SectorsOf(g))
    ensures Distinct(NewSectors(f, g))
    ensures forall x :: x in NewSectors(f, g) ==> x in SectorsOf(g) && x !in SectorsOf(f)
    ensures |NewSectors(f, g)| == |g.data| - |f.data| + |g.index| - |f.index| + if f.data == [] then 1 else 0
  {
    hide SectorsOf, Place;
    var added := NewSectors(f, g);
    forall i, j | 0 <= i < j < |added|
      ensures added[i] != added[j]
    {
      NewSector(g, |f.data|, |f.index|, added, i, f);
      NewSector(g, |f.data|, |f.index|, added, j, f);
      assert Place(g, |f.data|, |f.index|, i) != Place(g, |f.data|, |f.index|, j) by {
        PlacesDiffer(g, |f.data|, |f.index|, i, j);
      }
    }
    forall x | x in added
      ensures x in SectorsOf(g) && x !in SectorsOf(f)
    {
      var i :| 0 <= i < |added| && added[i] == x;
      NewSector(g, |f.data|, |f.index|, added, i, f);
    }
  }

  lemma PlacesDiffer(g: File, fd: int, fi: int, i: int, j: int)
    requires 0 <= fd <= |g.data| && 0 <= fi <= |g.index|
    requires 0 <= i < j <= |g.data| - fd + |g.index| - fi
    ensures Place(g, fd, fi, i) != Place(g, fd, fi, j)
  {
  }

  /** Where the `i`th newly added sector sits among those of the grown file. */
  ghost function Place(g: File, fd: int, fi: int, i: int): int
    requires 0 <= fd <= |g.data| && 0 <= fi <= |g.index|
  {
    if i < |g.data| - fd then fd + i
    else if i < |g.data| - fd + |g.index| - fi then |g.data| + fi + (i - (|g.data| - fd))
    else |g.data| + |g.index|
  }

  lemma NewSector(g: File, fd: int, fi: int, added: seq<int>, i: int, f: File)
    requires g.data != [] && |f.data| == fd <= |g.data| && |f.index| == fi <= |g.index|
    requires f.data <= g.data && f.index <= g.index && (f.data != [] ==> g.root == f.root)
    requires f.data == [] ==> f.index == []
    requires Distinct(SectorsOf(g))
    requires added == g.data[fd..] + g.index[fi..] + if f.data == [] then [g.root] else []
    requires 0 <= i < |added|
    ensures 0 <= Place(g, fd, fi, i) < |SectorsOf(g)| && SectorsOf(g)[Place(g, fd, fi, i)] == added[i]
    ensures added[i] in SectorsOf(g) && added[i] !in SectorsOf(f)
  {
    var s, p := SectorsOf(g), Place(g, fd, fi, i);
    assert s[p] == added[i];
    forall k | 0 <= k < |SectorsOf(f)|
      ensures SectorsOf(f)[k] != added[i]
    {
      var q := if k < fd then k else if k < fd + fi then |g.data| + (k - fd) else |g.data| + |g.index|;
      assert s[q] == SectorsOf(f)[k] && q != p;
    }
  }

  // ---------------------------------------------------------------- the header as one sector

  /** The 32 words stored for a header. It has 33: slot 29 is not stored. */
  ghost function HeaderWords(protection: Word, numBytes: Word, numSectors: Word, slots: seq<Word>): (ws: seq<Word>)
    requires |slots| == NUM_DIRECT
    ensures |ws| == WORDS_PER_SECTOR
  {
    [protection, numBytes, numSectors] + slots[..NUM_DIRECT - 1]
  }

  /** Sector `h` of the disk holds a header for `f`. */
  ghost predicate HeaderOnDisk(disk: seq<Sector>, bits: seq<bool>, h: int, f: File) {
    && 0 <= h < |disk|
    && FileHeld(Words(disk[h])[3..] + [-1], Words(disk[h])[1], disk, bits, f)
  }

  class FileHeader {
    var protection: Word
    var numBytes: int
    var numSectors: Word
    const dataSectors: array<Word>

    ghost predicate Valid() {
      dataSectors.Length == NUM_DIRECT
    }

    ghost function Slots(): seq<int>
      reads dataSectors
    {
      dataSectors[..]
    }

    constructor ()
      ensures Valid() && fresh(dataSectors)
      ensures Slots() == SlotsOf(EMPTY_FILE) && numBytes == 0
    {
      protection := *;
      dataSectors := new Word[NUM_DIRECT](_ => -1);
      numBytes, numSectors := 0, 0;
    }

    /** Reads 32 of the 33 words; the last slot keeps its value. */
    method FetchFrom(disk: SynchDisk, sector: int)
      requires Valid() && disk.Valid() && 0 <= sector < NUM_SECTORS
      modifies this, dataSectors
      ensures Slots() == Words(disk.View()[sector])[3..] + [old(Slots())[NUM_DIRECT - 1]]
      ensures protection == Words(disk.View()[sector])[0] && numBytes == Words(disk.View()[sector])[1]
    {
      var ws := disk.ReadWords(sector);
      protection, numBytes, numSectors := ws[0], ws[1], ws[2];
      forall i | 0 <= i < NUM_DIRECT - 1 {
        dataSectors[i] := ws[3 + i];
      }
    }

    method WriteBack(disk: SynchDisk, sector: int)
      requires Valid() && disk.Valid() && 0 <= sector < NUM_SECTORS
      requires -0x8000_0000 <= numBytes < 0x8000_0000
      modifies disk.sectors
      ensures |disk.View()| == |old(disk.View())|
      ensures Words(disk.View()[sector])[3..] == Slots()[..NUM_DIRECT - 1]
      ensures Words(disk.View()[sector])[1] == numBytes && Words(disk.View()[sector])[0] == protection
      ensures forall s :: 0 <= s < NUM_SECTORS && s != sector ==> disk.View()[s] == old(disk.View()[s])
    {
      var bytes: Word := numBytes;
      disk.WriteWords(sector, [protection, bytes, numSectors] + dataSectors[..NUM_DIRECT - 1]);
    }

    method SetProtection(p: Word)
      modifies this`protection
      ensures protection == p
    {
      protection := p;
    }

    /** Adds `fileSize` bytes to the file. It compares the clear sectors with the data sectors
        alone. With room for the index sectors too (`Need`) the file comes out in order; with
        less the answer is still yes, but `missing` data sectors were never allocated (a number that the
        code leaves behind in its loop), or the code stops on writing an index block to sector -1. */
    method Allocate(disk: SynchDisk, bm: Bitmap, fileSize: int, ghost f: File)
      returns (ok: bool, trapped: bool, missing: int, ghost g: File, ghost taken: seq<int>)
      requires Valid() && disk.Valid() && bm.Valid() && bm.numBits == NUM_SECTORS && fileSize >= 0
      requires FileHeld(Slots(), numBytes, disk.View(), bm.Bits(), f)
      modifies this, dataSectors, bm.words, disk.sectors
      ensures var n, clear := DivRoundUp(fileSize, SECTOR_SIZE), CountClear(old(bm.Bits()));
              && (clear < n ==>
                    && !ok && !trapped && unchanged(this) && unchanged(dataSectors)
                    && unchanged(bm.words) && unchanged(disk.sectors))
              && (n <= clear < Need(f, n) ==>
                    if GoesOn(|f.data|, clear, n) then
                      ok && !trapped && missing > 0 && numBytes == f.length + fileSize && dataSectors[1] != -1
                    else !ok && trapped)
              && (Need(f, n) <= clear ==>
                    && ok && !trapped && missing == 0 && protection == old(protection)
                    && FileHeld(Slots(), numBytes, disk.View(), bm.Bits(), g)
                    && FileGrown(f, g, fileSize, n, taken)
                    && Took(old(bm.Bits()), bm.Bits(), taken)
                    && |taken| == Need(f, n) && CountClear(bm.Bits()) == clear - Need(f, n)
                    && SameBut(old(disk.View()), disk.View(), g.index + [g.root]))
      ensures Kept(old(disk.View()), disk.View(), old(bm.Bits()), bm.Bits(), f.index + [f.root])
    {
      hide FileHeld, FileGrown, Took, CountClear, Unpack, Bitmap.Bits, Kept, SameBut, SectorsOf, NewIndex,
           LeftOver;
      ok, trapped, missing, g, taken := false, false, 0, f, [];
      ghost var d0, slots0 := disk.View(), Slots();
      KeptNone(d0, bm.Bits(), f.index + [f.root]);
      var n := DivRoundUp(fileSize, SECTOR_SIZE);
      IndexMonotone(|f.data|, n);
      SameNone(d0, f.index + [f.root]);
      var clear := bm.NumClear();
      if clear < n {
        return;
      }
      ghost var bits := bm.Bits();
      ghost var left := LeftOver(|f.data|, clear - (if f.data == [] then 1 else 0), n);
      TookNone(bits);
      FileGrownNone(Slots(), numBytes, disk.View(), bits, f);
      var count := 0;
      var i := 0;
      while i < NUM_DIRECT && count < n
        invariant 0 <= i <= NUM_DIRECT && count <= n && numBytes == f.length && protection == old(protection)
        invariant i == 0 ==> count == 0 && bm.Bits() == bits && g == f && taken == [] && disk.View() == old(disk.View())
        invariant i == 0 ==> FileHeld(Slots(), f.length, disk.View(), bits, f)
        invariant forall k :: i <= k < NUM_DIRECT && k > 0 ==> dataSectors[k] == -1
        invariant i > 1 ==> dataSectors[1] != -1
        invariant Kept(d0, disk.View(), bits, bm.Bits(), f.index + [f.root])
        invariant clear < Need(f, n) && i > 0 ==> CountClear(bm.Bits()) < n - count
        invariant clear < Need(f, n) && i > 0 ==> CountClear(bm.Bits()) == left - (i - 1)
        invariant Need(f, n) <= clear && i > 0 ==> count == n
        invariant Need(f, n) <= clear ==>
                    && FileHeld(Slots(), f.length, disk.View(), bm.Bits(), g)
                    && FileGrown(f, g, 0, count, taken)
                    && Took(bits, bm.Bits(), taken)
                    && SameBut(old(disk.View()), disk.View(), g.index + [g.root])
      {
        var res;
        ghost var d, b := disk.View(), bm.Bits();
        res, trapped, g, taken := FillSlot(disk, bm, i, n - count, f);
        KeptMore(d0, d, disk.View(), bits, b, bm.Bits(), f.index + [f.root], f.index + [f.root]);
        if trapped {
          return;
        }
        count := count + res;
        i := i + 1;
      }
      missing := n - count;
      if Need(f, n) <= clear {
        FileLonger(Slots(), disk.View(), bm.Bits(), f, g, fileSize, n, taken);
        g := g.(length := f.length + fileSize);
        TakenIsNeed(slots0, f.length, d0, bits, f, Slots(), g.length, disk.View(), bm.Bits(), g, fileSize, n, taken);
      }
      numBytes := numBytes + fileSize;
      ok := true;
    }

    /** The body of that loop. Slot 0 gets everything that fits; later slots are reached only when
        the map has run short, and get nothing. */
    method FillSlot(disk: SynchDisk, bm: Bitmap, i: int, want: int, ghost f: File)
      returns (res: int, trapped: bool, ghost g: File, ghost taken: seq<int>)
      requires Valid() && disk.Valid() && bm.Valid() && bm.numBits == NUM_SECTORS
      requires 0 <= i < NUM_DIRECT && want > 0
      requires i == 0 ==> FileHeld(Slots(), f.length, disk.View(), bm.Bits(), f) && want <= CountClear(bm.Bits())
      requires i > 0 ==> dataSectors[i] == -1 && CountClear(bm.Bits()) < want
      modifies dataSectors, bm.words, disk.sectors
      ensures forall k :: 0 <= k < NUM_DIRECT && k != i ==> dataSectors[k] == old(dataSectors[k])
      ensures Kept(old(disk.View()), disk.View(), old(bm.Bits()), bm.Bits(), f.index + [f.root])
      ensures !trapped ==> dataSectors[i] != -1
      ensures i > 0 ==>
                && (trapped <==> CountClear(old(bm.Bits())) == 0)
                && (!trapped ==> res == -1 && CountClear(bm.Bits()) == CountClear(old(bm.Bits())) - 1)
      ensures i == 0 && CountClear(old(bm.Bits())) < Need(f, want) ==>
                var left := LeftOver(|f.data|, CountClear(old(bm.Bits())) - (if f.data == [] then 1 else 0), want);
                && (trapped <==> left < 0)
                && (!trapped ==> res < want && CountClear(bm.Bits()) < want - res && CountClear(bm.Bits()) == left)
      ensures i == 0 && Need(f, want) <= CountClear(old(bm.Bits())) ==>
                && !trapped && res == want
                && FileHeld(Slots(), f.length, disk.View(), bm.Bits(), g)
                && FileGrown(f, g, 0, want, taken)
                && Took(old(bm.Bits()), bm.Bits(), taken)
                && SameBut(old(disk.View()), disk.View(), g.index + [g.root])
    {
      hide FileHeld, FileGrown, TreeHeld, Took, Extends, CountClear, Unpack, Bitmap.Bits, Pad, HeaderWords, Kept;
      ghost var d0, bits0, slots0 := disk.View(), bm.Bits(), Slots();
      ghost var added := [];
      if i == 0 {
        SlotZero(slots0, f.length, d0, bits0, f);
      }
      var dBlock := new DoubleIndirect();
      if dataSectors[i] == -1 {
        var s := bm.FindAndSet();
        dataSectors[i] := s;
        if s != -1 {
          added := [s];
          TookOne(bits0, s);
          NewTree(disk.View(), bm.Bits());
        }
      } else {
        dBlock.FetchFrom(disk, dataSectors[i]);
        TookNone(bits0);
      }
      ghost var bits1 := bm.Bits();
      ghost var index, data, more;
      if i == 0 {
        TreeStillHeld(dBlock.View(), d0, bits0, bits1, added, f);
      }
      ghost var view := dBlock.View();
      ViewIsIndex(slots0, f.length, d0, bits0, f, i, view);
      res, trapped, index, data, more := dBlock.AllocateBlock(disk, bm, want, f.index, f.data);
      g, taken := File(f.length, dataSectors[i], index, data), added + more;
      ghost var d1 := disk.View();
      TreeKept(d0, d1, bits0, bits1, bm.Bits(), added, view, f);
      if trapped {
        return;
      }
      trapped := dataSectors[i] == -1;
      if trapped {
        return;
      }
      dBlock.WriteBack(disk, dataSectors[i]);
      RootKept(d0, d1, disk.View(), bits0, bm.Bits(), dataSectors[i], added, f);
      if i == 0 && Need(f, want) <= CountClear(bits0) {
        TookMore(bits0, bits1, bm.Bits(), added, more);
        FileTurn(slots0, Slots(), d0, d1, disk.View(), bits0, bits1, bm.Bits(), dBlock.View(), f, g, added, more);
      }
    }

    /** Gives back every sector of the file but the one of its header, each of them once. */
    method Deallocate(disk: SynchDisk, bm: Bitmap, ghost f: File)
      requires Valid() && disk.Valid() && bm.Valid() && bm.numBits == NUM_SECTORS
      requires FileHeld(Slots(), numBytes, disk.View(), bm.Bits(), f)
      modifies bm.words
      ensures Freed(old(bm.Bits()), bm.Bits(), SectorsOf(f))
    {
      hide FileHeld, TreeHeld, Freed, CountClear, Unpack, Bitmap.Bits;
      ghost var bits := bm.Bits();
      FreedNone(bits);
      FileGrownNone(Slots(), numBytes, disk.View(), bits, f);
      SlotZero(Slots(), numBytes, disk.View(), bits, f);
      for i := 0 to NUM_DIRECT
        invariant i == 0 ==> bm.Bits() == bits
        invariant Freed(bits, bm.Bits(), if i == 0 then [] else SectorsOf(f))
      {
        var sector := dataSectors[i];
        if sector != -1 {
          var dBlock := new DoubleIndirect();
          dBlock.FetchFrom(disk, sector);
          dBlock.DeallocateBlock(disk, bm, f.index, f.data);
          ghost var bits1 := bm.Bits();
          assert bm.Bits()[sector] by {
            RootMarked(Slots(), numBytes, disk.View(), bits, f);
            StaysMarked(bits, bits1, f.data + f.index, sector);
          }
          bm.Clear(sector);
          FreedRoot(bits, bits1, f.data + f.index, sector);
        }
      }
    }

    /** The data sector that holds byte `offset`. */
    method ByteToSector(disk: SynchDisk, offset: int, ghost bits: seq<bool>, ghost f: File) returns (r: int)
      requires Valid() && disk.Valid()
      requires FileHeld(Slots(), numBytes, disk.View(), bits, f)
      requires 0 <= offset && offset / SECTOR_SIZE < |f.data|
      ensures r == f.data[offset / SECTOR_SIZE]
    {
      hide FileHeld, TreeHeld;
      SlotZero(Slots(), numBytes, disk.View(), bits, f);
      var store := offset / SECTOR_SIZE;
      var dBlock := new DoubleIndirect();
      dBlock.FetchFrom(disk, dataSectors[store / (MAX_BLOCKS_NUM * MAX_BLOCKS_NUM)]);
      r := dBlock.ByteConvertToSector(disk, offset, bits, f.index, f.data);
    }
  }

  lemma RootMarked(slots: seq<int>, numBytes: int, disk: seq<Sector>, bits: seq<bool>, f: File)
    requires FileHeld(slots, numBytes, disk, bits, f) && f.data != []
    ensures 0 <= f.root < |bits| && bits[f.root] && f.root !in f.data + f.index
  {
  }

  lemma FreedRoot(before: seq<bool>, after: seq<bool>, gone: seq<int>, s: int)
    requires Freed(before, after, gone) && 0 <= s < |after|
    ensures Freed(before, after[s := false], gone + [s])
  {
  }

  /** The slots of the double-indirect block in hand are the file's index sectors, or empty. */
  lemma ViewIsIndex(slots: seq<int>, n: int, disk: seq<Sector>, bits: seq<bool>, f: File, i: int, view: seq<int>)
    requires 0 <= i < NUM_DIRECT && (i == 0 ==> FileHeld(slots, n, disk, bits, f))
    requires view == Pad([]) || (i == 0 && f.data != [] && view == Words(disk[f.root]))
    ensures forall x :: x in view ==> x == -1 || x in f.index
  {
  }

  lemma TreeKept(d0: seq<Sector>, d1: seq<Sector>, b0: seq<bool>, b1: seq<bool>, b2: seq<bool>, added: seq<int>,
                 view: seq<int>, f: File)
    requires Took(b0, b1, added) && Kept(d0, d1, b1, b2, view)
    requires forall x :: x in view ==> x == -1 || x in f.index
    ensures Kept(d0, d1, b0, b2, f.index + [f.root])
  {
  }

  lemma RootKept(d0: seq<Sector>, d1: seq<Sector>, d2: seq<Sector>, b0: seq<bool>, b2: seq<bool>, s: int,
                 added: seq<int>, f: File)
    requires Kept(d0, d1, b0, b2, f.index + [f.root]) && |d2| == |d1|
    requires forall x :: 0 <= x < |d1| && x != s ==> d2[x] == d1[x]
    requires s == f.root || (0 <= s < |b0| && !b0[s])
    ensures Kept(d0, d2, b0, b2, f.index + [f.root])
  {
  }

  lemma FileGrownNone(slots: seq<int>, numBytes: int, disk: seq<Sector>, bits: seq<bool>, f: File)
    requires FileHeld(slots, numBytes, disk, bits, f)
    ensures FileGrown(f, f, 0, 0, []) && numBytes == f.length && 0 <= f.length <= SECTOR_SIZE * |f.data|
    ensures |slots| == NUM_DIRECT && forall k :: 0 < k < NUM_DIRECT ==> slots[k] == -1
  {
  }

  lemma FileLonger(slots: seq<int>, disk: seq<Sector>, bits: seq<bool>, f: File, g: File, fileSize: int, n: int,
                   taken: seq<int>)
    requires FileHeld(slots, f.length, disk, bits, g) && FileGrown(f, g, 0, n, taken)
    requires 0 <= f.length <= SECTOR_SIZE * |f.data| && fileSize >= 0 && n == DivRoundUp(fileSize, SECTOR_SIZE)
    ensures FileHeld(slots, f.length + fileSize, disk, bits, g.(length := f.length + fileSize))
    ensures FileGrown(f, g.(length := f.length + fileSize), fileSize, n, taken)
  {
    assert SectorsOf(g) == SectorsOf(g.(length := f.length + fileSize));
  }

  lemma SlotZero(slots: seq<int>, numBytes: int, disk: seq<Sector>, bits: seq<bool>, f: File)
    requires FileHeld(slots, numBytes, disk, bits, f)
    ensures |slots| == NUM_DIRECT && |disk| == NUM_SECTORS && slots[0] == f.root
    ensures if f.data == [] then f.index == [] && f.root == -1 else
              0 <= f.root < NUM_SECTORS && TreeHeld(Words(disk[f.root]), disk, bits, f.index, f.data)
    ensures |f.data| <= MAX_TREE && |f.data| + CountClear(bits) <= NUM_SECTORS
    ensures |f.index| == IndexCount(|f.data|) && |bits| == NUM_SECTORS
  {
    DataFits(slots, numBytes, disk, bits, f);
  }

  lemma NewTree(disk: seq<Sector>, bits: seq<bool>)
    requires |disk| == NUM_SECTORS
    ensures TreeHeld(Pad([]), disk, bits, [], [])
  {
  }

  lemma TreeStillHeld(view: seq<int>, disk: seq<Sector>, bits0: seq<bool>, bits1: seq<bool>, added: seq<int>, f: File)
    requires TreeHeld(view, disk, bits0, f.index, f.data) || (f.index == f.data == [] && view == Pad([]))
    requires Took(bits0, bits1, added) && |disk| == |bits0| == NUM_SECTORS
    ensures TreeHeld(view, disk, bits1, f.index, f.data)
  {
  }

  /** The double-indirect block has grown and is written back: the file is in order again. */
  lemma FileTurn(slots0: seq<int>, slots1: seq<int>, d0: seq<Sector>, d1: seq<Sector>, d2: seq<Sector>,
                 bits0: seq<bool>, bits1: seq<bool>, bits2: seq<bool>, view: seq<int>,
                 f: File, g: File, added: seq<int>, more: seq<int>)
    requires FileHeld(slots0, f.length, d0, bits0, f)
    requires Took(bits0, bits1, added) && Took(bits1, bits2, more)
    requires if f.data == [] then added == [g.root] else added == [] && g.root == f.root
    requires slots1 == slots0[0 := g.root] && g.length == f.length && |g.data| > |f.data|
    requires TreeHeld(view, d1, bits2, g.index, g.data) && Extends(f.index, f.data, g.index, g.data, more)
    requires |d1| == |d2| && 0 <= g.root < |d2| && Words(d2[g.root]) == view
    requires forall s :: 0 <= s < |d2| && s != g.root ==> d2[s] == d1[s]
    ensures FileHeld(slots1, f.length, d2, bits2, g)
    ensures FileGrown(f, g, 0, |g.data| - |f.data|, added + more)
  {
    assert g.root !in g.index + g.data by {
      assert added != [] ==> added[0] in added;
      assert bits1[g.root] && g.root !in more;
      assert g.root !in f.index + f.data;
    }
    assert g.root !in g.index && g.root !in g.data;
    forall j | 0 <= j < |g.index|
      ensures Words(d2[g.index[j]]) == Pad(Chunk(g.data, j))
    {
      assert g.index[j] in g.index;
    }
    forall x
      ensures x in SectorsOf(g) <==> x in SectorsOf(f) || x in added + more
    {
      assert x in g.index + g.data <==> x in f.index + f.data || x in more;
    }
    if f.data != [] {
      SectorsDistinct(slots0, f.length, d0, bits0, f);
    }
  }

  // ---------------------------------------------------------------- any sequence of allocations

  /** The data sectors that allocations of these sizes get, one after the other, for a file with `have`
      of them on a map with `clear` clear sectors: one that does not fit is refused. */
  function Granted(have: nat, clear: int, sizes: seq<nat>): (n: nat)
    decreases |sizes|
  {
    if sizes == [] then 0
    else
      var n := BlocksOf(sizes[0]);
      if clear < n then Granted(have, clear, sizes[1..])
      else n + Granted(have + n, clear - NeedAfter(have, n), sizes[1..])
  }

  /** The bytes that they add to the length. */
  function GrantedBytes(have: nat, clear: int, sizes: seq<nat>): (bytes: nat)
    decreases |sizes|
  {
    if sizes == [] then 0
    else
      var n := BlocksOf(sizes[0]);
      if clear < n then GrantedBytes(have, clear, sizes[1..])
      else sizes[0] + GrantedBytes(have + n, clear - NeedAfter(have, n), sizes[1..])
  }

  /** No allocation of the sequence finds room for its data but not for its index sectors. */
  predicate Decided(have: nat, clear: int, sizes: seq<nat>)
    decreases |sizes|
  {
    sizes == [] ||
    var n := BlocksOf(sizes[0]);
    if clear < n then Decided(have, clear, sizes[1..])
    else NeedAfter(have, n) <= clear && Decided(have + n, clear - NeedAfter(have, n), sizes[1..])
  }

  function BlocksOf(size: nat): (n: nat) {
    DivRoundUp(size, SECTOR_SIZE)
  }

  /** What two allocations need together is what one for both needs. */
  lemma NeedTwice(have: nat, m: nat, n: nat)
    ensures NeedAfter(have, m + n) == NeedAfter(have, m) + NeedAfter(have + m, n)
  {
  }

  lemma GrownTwice(f: File, g: File, h: File, b1: int, n1: int, t1: seq<int>, b2: int, n2: int, t2: seq<int>)
    requires FileGrown(f, g, b1, n1, t1) && FileGrown(g, h, b2, n2, t2)
    ensures FileGrown(f, h, b1 + b2, n1 + n2, t1 + t2)
  {
    hide SectorsOf;
  }

  lemma NeedOfFile(f: File, n: nat)
    ensures Need(f, n) == NeedAfter(|f.data|, n)
  {
  }

  /** Allocations one after the other on one header: the file has grown by all that were granted, the
      bits newly marked are exactly its new sectors, and the number of clear ones has dropped by exactly
      what the data sectors granted and the index sectors over them need. */
  method AllocateEach(hdr: FileHeader, disk: SynchDisk, bm: Bitmap, sizes: seq<nat>, ghost f: File)
    returns (ghost g: File, ghost taken: seq<int>)
    requires hdr.Valid() && disk.Valid() && bm.Valid() && bm.numBits == NUM_SECTORS
    requires FileHeld(hdr.Slots(), hdr.numBytes, disk.View(), bm.Bits(), f)
    requires Decided(|f.data|, CountClear(bm.Bits()), sizes)
    modifies hdr, hdr.dataSectors, bm.words, disk.sectors
    ensures var n := Granted(|f.data|, CountClear(old(bm.Bits())), sizes);
            && FileHeld(hdr.Slots(), hdr.numBytes, disk.View(), bm.Bits(), g)
            && FileGrown(f, g, GrantedBytes(|f.data|, CountClear(old(bm.Bits())), sizes), n, taken)
            && Took(old(bm.Bits()), bm.Bits(), taken)
            && CountClear(bm.Bits()) == CountClear(old(bm.Bits())) - NeedAfter(|f.data|, n)
  {
    hide FileHeld, FileGrown, Took, CountClear, Unpack, Bitmap.Bits, NewIndex, Need;
    g, taken := f, [];
    ghost var b0, clear := bm.Bits(), CountClear(bm.Bits());
    TookNone(b0);
    FileGrownNone(hdr.Slots(), hdr.numBytes, disk.View(), b0, f);
    ghost var n: nat, bytes: nat := 0, 0;
    NeedTwice(|f.data|, 0, 0);
    for i := 0 to |sizes|
      invariant FileHeld(hdr.Slots(), hdr.numBytes, disk.View(), bm.Bits(), g)
      invariant FileGrown(f, g, bytes, n, taken) && |g.data| == |f.data| + n && Took(b0, bm.Bits(), taken)
      invariant CountClear(bm.Bits()) == clear - NeedAfter(|f.data|, n)
      invariant Decided(|g.data|, CountClear(bm.Bits()), sizes[i..])
      invariant Granted(|f.data|, clear, sizes) == n + Granted(|g.data|, CountClear(bm.Bits()), sizes[i..])
      invariant GrantedBytes(|f.data|, clear, sizes) ==
                  bytes + GrantedBytes(|g.data|, CountClear(bm.Bits()), sizes[i..])
    {
      ghost var b1, g1 := bm.Bits(), g;
      ghost var m := BlocksOf(sizes[i]);
      assert sizes[i..][0] == sizes[i] && sizes[i..][1..] == sizes[i + 1..];
      NeedOfFile(g1, m);
      var ok, trapped, missing; ghost var g2, more;
      ok, trapped, missing, g2, more := hdr.Allocate(disk, bm, sizes[i], g1);
      if ok {
        GrownTwice(f, g1, g2, bytes, n, taken, sizes[i], m, more);
        TookMore(b0, b1, bm.Bits(), taken, more);
        NeedTwice(|f.data|, n, m);
        GrownLength(g1, g2, sizes[i], m, more);
        g, taken, n, bytes := g2, taken + more, n + m, bytes + sizes[i];
      }
    }
  }

  lemma GrownLength(f: File, g: File, fileSize: int, n: int, taken: seq<int>)
    requires FileGrown(f, g, fileSize, n, taken)
    ensures |g.data| == |f.data| + n && Grown(SectorsOf(f), SectorsOf(g), taken)
  {
  }

  /** Conservation: after any sequence of allocations, deallocation leaves the map as it was before them,
      bit for bit, but for the sectors that the file had even then. For a file that was empty the map is
      exactly the old one. */
  method AllocateEachThenDeallocate(hdr: FileHeader, disk: SynchDisk, bm: Bitmap, sizes: seq<nat>, ghost f: File)
    requires hdr.Valid() && disk.Valid() && bm.Valid() && bm.numBits == NUM_SECTORS
    requires FileHeld(hdr.Slots(), hdr.numBytes, disk.View(), bm.Bits(), f)
    requires Decided(|f.data|, CountClear(bm.Bits()), sizes)
    modifies hdr, hdr.dataSectors, bm.words, disk.sectors
    ensures Freed(old(bm.Bits()), bm.Bits(), SectorsOf(f))
    ensures f == EMPTY_FILE ==> bm.Bits() == old(bm.Bits())
  {
    hide FileHeld, FileGrown, Took, CountClear, Unpack, Bitmap.Bits, Decided, Granted, GrantedBytes, Freed, SectorsOf,
         NeedAfter;
    ghost var b0 := bm.Bits();
    ghost var g, taken := AllocateEach(hdr, disk, bm, sizes, f);
    ghost var b1, n := bm.Bits(), Granted(|f.data|, CountClear(b0), sizes);
    hdr.Deallocate(disk, bm, g);
    GrownLength(f, g, GrantedBytes(|f.data|, CountClear(b0), sizes), n, taken);
    FreedUndoesTook(b0, b1, bm.Bits(), SectorsOf(f), taken, SectorsOf(g));
    if f == EMPTY_FILE {
      FreedNothing(b0, bm.Bits());
    }
  }

  lemma FreedNothing(before: seq<bool>, after: seq<bool>)
    requires Freed(before, after, SectorsOf(EMPTY_FILE))
    ensures after == before
  {
  }

  /** The shortfall that Allocate does not see does occur: one clear sector, and one byte to allocate. */
  lemma ShortfallExists(disk: seq<Sector>) returns (bits: seq<bool>)
    requires |disk| == NUM_SECTORS
    ensures FileHeld(SlotsOf(EMPTY_FILE), 0, disk, bits, EMPTY_FILE) && CountClear(bits) == 1
    ensures var n := DivRoundUp(1, SECTOR_SIZE); n <= CountClear(bits) < Need(EMPTY_FILE, n)
  {
    bits := seq(NUM_SECTORS, i => i != 0);
    OneClear(NUM_SECTORS);
  }

  lemma {:induction false} OneClear(n: nat)
    requires n > 0
    ensures CountClear(seq(n, i => i != 0)) == 1
  {
    var b := seq(n, i => i != 0);
    if n > 1 {
      OneClear(n - 1);
      assert b[..n - 1] == seq(n - 1, i => i != 0);
    }
  }
}
