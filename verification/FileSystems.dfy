/** The file system as a whole (filesys/filesys.cc), with the files of the root directory: format,
    create, remove and write as steps that keep one invariant. */
module FileSystems {
  import opened Sectors
  import opened Bitmaps
  import opened Blocks
  import opened FileHeaders
  import opened FileContents
  import opened Ownership
  import opened OpenFiles
  import opened Directories
  import opened Shortages

  const DIRECTORY_BYTES := ENTRY_SIZE * NUM_DIR_ENTRIES
  const DIRECTORY_BLOCKS := 4  // 200 bytes at format, and 200 more for the size of the table
  const GROWN_BLOCKS := 4      // what a table of 20 entries adds

  // ---------------------------------------------------------------- the directory

  /** The entries in use and the files are the same: each entry leads to a header of its own, and
      each header but the two fixed ones has an entry. */
  ghost predicate Lists(es: seq<Entry>, files: map<int, File>) {
    && |es| == NUM_DIR_ENTRIES && NamesPadded(es)
    && (forall i :: 0 <= i < |es| && es[i].inUse ==>
          && es[i].sector in files && es[i].sector != FREE_MAP_SECTOR && es[i].sector != DIRECTORY_SECTOR
          && !es[i].isDirectory)
    && (forall i, j :: 0 <= i < j < |es| && es[i].inUse && es[j].inUse ==>
          es[i].sector != es[j].sector && es[i].name != es[j].name)
    && (forall h :: h in files && h != FREE_MAP_SECTOR && h != DIRECTORY_SECTOR ==>
          exists i :: 0 <= i < |es| && es[i].inUse && es[i].sector == h)
  }

  ghost predicate DirReady(disk: seq<Sector>, files: map<int, File>) {
    && FREE_MAP_SECTOR in files && DIRECTORY_SECTOR in files
    && Readable(disk, files[DIRECTORY_SECTOR])
    && files[DIRECTORY_SECTOR].length == 2 * DIRECTORY_BYTES && |files[DIRECTORY_SECTOR].data| == DIRECTORY_BLOCKS
    && WordAt(Content(disk, files[DIRECTORY_SECTOR]), 0) == NUM_DIR_ENTRIES
  }

  /** The table of the directory on the disk. */
  ghost function DirTable(disk: seq<Sector>, files: map<int, File>): (table: seq<Byte>)
    ensures |table| == DIRECTORY_BYTES || table == []
  {
    if DirReady(disk, files) then Content(disk, files[DIRECTORY_SECTOR])[4..4 + DIRECTORY_BYTES] else []
  }

  /** The entries of the directory on the disk. */
  ghost function DirEntries(disk: seq<Sector>, files: map<int, File>): seq<Entry> {
    Entries(DirTable(disk, files))
  }

  /** What holds between any two operations of the file system. */
  ghost predicate Sound(disk: seq<Sector>, files: map<int, File>, own: map<int, int>) {
    && FSInv(disk, files, own)
    && DirReady(disk, files)
    && Lists(DirEntries(disk, files), files)
  }

  lemma EntriesOfStored(disk: seq<Sector>, files: map<int, File>, table: seq<Byte>)
    requires 0 in files && 1 in files && Readable(disk, files[1])
    requires files[1].length == 2 * DIRECTORY_BYTES && |files[1].data| == DIRECTORY_BLOCKS
    requires StoredDir(Content(disk, files[1]), table) && |table| == DIRECTORY_BYTES
    ensures DirReady(disk, files) && DirEntries(disk, files) == Entries(table)
  {
  }

  lemma DirKept(d0: seq<Sector>, d1: seq<Sector>, files: map<int, File>, files': map<int, File>)
    requires DirReady(d0, files) && 0 in files' && 1 in files' && files'[1] == files[1]
    requires Readable(d1, files[1]) && Content(d1, files[1]) == Content(d0, files[1])
    ensures DirReady(d1, files') && DirEntries(d1, files') == DirEntries(d0, files)
  {
  }

  // ---------------------------------------------------------------- listing more and fewer files

  lemma ListsMore(es: seq<Entry>, files: map<int, File>, k: int, name: Name, s: int, g: File)
    requires Lists(es, files) && 0 <= k < |es| && !es[k].inUse && IsPlaceOf(es, name, -1)
    requires s !in files && 0 in files && 1 in files
    ensures Lists(es[k := Entry(false, true, s, Key(name))], files[s := g])
  {
    var es', files' := es[k := Entry(false, true, s, Key(name))], files[s := g];
    KeyPadded(name);
    forall h | h in files' && h != FREE_MAP_SECTOR && h != DIRECTORY_SECTOR
      ensures exists i :: 0 <= i < |es'| && es'[i].inUse && es'[i].sector == h
    {
      if h == s {
        assert es'[k].sector == s;
      } else {
        var i :| 0 <= i < |es| && es[i].inUse && es[i].sector == h;
        assert es'[i] == es[i];
      }
    }
  }

  lemma KeyPadded(name: Name)
    ensures ZeroPadded(Key(name))
  {
    forall i, j | 0 <= i < j < |Key(name)|
      ensures Key(name)[i] == 0 ==> Key(name)[j] == 0
    {
      assert i < |name| ==> name[i] in name;
    }
  }

  lemma ListsSame(es: seq<Entry>, files: map<int, File>, h: int, g: File)
    requires Lists(es, files) && h in files
    ensures Lists(es, files[h := g])
  {
  }

  lemma ListsFewer(es: seq<Entry>, files: map<int, File>, k: int)
    requires Lists(es, files) && 0 <= k < |es| && es[k].inUse
    ensures Lists(es[k := es[k].(inUse := false)], files - {es[k].sector})
  {
    var es', files' := es[k := es[k].(inUse := false)], files - {es[k].sector};
    forall h | h in files' && h != FREE_MAP_SECTOR && h != DIRECTORY_SECTOR
      ensures exists i :: 0 <= i < |es'| && es'[i].inUse && es'[i].sector == h
    {
      var i :| 0 <= i < |es| && es[i].inUse && es[i].sector == h;
      assert es'[i] == es[i];
    }
  }

  // ---------------------------------------------------------------- create: the steps between

  /** Sectors that no file uses may change. */
  lemma UnownedFrame(d0: seq<Sector>, d1: seq<Sector>, files: map<int, File>, own: map<int, int>)
    requires FSInv(d0, files, own) && |d1| == |d0|
    requires forall s :: s in own && 0 <= s < NUM_SECTORS ==> d1[s] == d0[s]
    ensures FSInv(d1, files, own) && FreeBits(d1, files) == FreeBits(d0, files)
    ensures forall k :: k in files ==>
              Readable(d0, files[k]) && Readable(d1, files[k]) && Content(d1, files[k]) == Content(d0, files[k])
  {
    hide Content, FileHeld, HeaderOnDisk, StoredBits, Readable, FreeBits, MarksAre;
    var bits := FreeBits(d0, files);
    forall k | k in files
      ensures HeaderOnDisk(d1, bits, k, files[k])
      ensures Readable(d0, files[k]) && Readable(d1, files[k]) && Content(d1, files[k]) == Content(d0, files[k])
    {
      FileOf(d0, files, own, k);
      OwnSectors(files, own, k);
      MarkedOwn(d0, files, own, k);
      HeaderReadable(d0, bits, k, files[k]);
      FileFrame(d0, d1, bits, bits, k, files[k]);
      DataInFile(files[k]);
      ContentFrame(d0, d1, files[k]);
    }
    FileOf(d0, files, own, 0) by { assert 0 in files; }
    MapKept(d0, d1, files);
  }

  lemma DataInFile(f: File)
    ensures forall s :: s in f.data ==> s in SectorsOf(f)
  {
  }

  lemma OwnSectors(files: map<int, File>, own: map<int, int>, k: int)
    requires Owns(files, own) && k in files
    ensures k in own && forall s :: s in SectorsOf(files[k]) ==> s in own
  {
    hide SectorsOf;
    assert Uses(k, files[k], k);
    assert forall s :: s in SectorsOf(files[k]) ==> Uses(k, files[k], s);
  }

  lemma MarkedOwn(disk: seq<Sector>, files: map<int, File>, own: map<int, int>, k: int)
    requires FSInv(disk, files, own) && k in files
    ensures forall s :: s in SectorsOf(files[k]) && 0 <= s < NUM_SECTORS ==> FreeBits(disk, files)[s]
  {
    hide SectorsOf, StoredBits, HeaderOnDisk, Content, Readable;
    OwnSectors(files, own, k);
  }

  /** What a new file's blocks and header are written to is used by no other file. */
  lemma ExtendedUnowned(files: map<int, File>, own: map<int, int>, b0: seq<bool>, b1: seq<bool>,
                        h: int, g: File, taken: seq<int>, d0: seq<Sector>, d1: seq<Sector>)
    requires Owns(files, own) && Extended(files, own, b0, b1, h, g, taken, d0, d1) && h !in files
    ensures |d1| == |d0| && forall s :: s in own && 0 <= s < NUM_SECTORS ==> d1[s] == d0[s]
  {
    forall s | s in own && 0 <= s < NUM_SECTORS
      ensures d1[s] == d0[s]
    {
      NotTouched(files, own, b0, b1, h, g, taken, d0, d1, own[s], s);
    }
  }

  /** Writing the data of another file in between does no harm to the new one. */
  lemma ExtendedAfterWrite(files: map<int, File>, own: map<int, int>, b0: seq<bool>, b1: seq<bool>,
                           h: int, g: File, taken: seq<int>, d0: seq<Sector>, d1: seq<Sector>, d2: seq<Sector>, k: int)
    requires Owns(files, own) && Extended(files, own, b0, b1, h, g, taken, d0, d1) && h !in files
    requires k in files && SameBut(d1, d2, files[k].data)
    ensures Extended(files, own, b0, b1, h, g, taken, d2, d2)
    ensures Words(d2[h]) == Words(d1[h])
    ensures Readable(d1, g) && Readable(d2, g) && Content(d2, g) == Content(d1, g)
  {
    hide Content, Words, TreeHeld, Owns, SectorsOf, Took;
    DataInFile(files[k]);
    DataInFile(g);
    forall s | s in files[k].data && 0 <= s < NUM_SECTORS
      ensures !Uses(h, g, s)
    {
      NotTouched(files, own, b0, b1, h, g, taken, d0, d1, k, s);
    }
    FileMarked(d1, b1, h, g);
    assert forall s :: s in SectorsOf(g) ==> Uses(h, g, s);
    assert Uses(h, g, h);
    FileFrame(d1, d2, b1, b1, h, g);
    ContentFrame(d1, d2, g);
  }

  // ---------------------------------------------------------------- remove: the step between

  lemma Removed(d0: seq<Sector>, d1: seq<Sector>, files: map<int, File>, own: map<int, int>, b1: seq<bool>, h: int)
    requires FSInv(d0, files, own) && h in files && h != FREE_MAP_SECTOR
    requires Freed(FreeBits(d0, files), b1, SectorsOf(files[h]) + [h])
    requires SameBut(d0, d1, files[0].data) && IsMapFile(d1, files[0]) && StoredBits(d1, files[0]) == b1
    ensures FSInv(d1, files - {h}, OwnLess(own, h)) && FreeBits(d1, files - {h}) == FreeBits(d1, files) == b1
    ensures HeaderOnDisk(d1, b1, 0, files[0])
    ensures OthersSame(d0, d1, files, h)
  {
    hide Content, FileHeld, HeaderOnDisk, StoredBits, Owns, SectorsOf, IsMapFile, Freed, Uses;
    FileOf(d0, files, own, h);
    var b0, files' := FreeBits(d0, files), files - {h};
    OwnsLess(files, own, h);
    forall k | k in files'
      ensures HeaderOnDisk(d1, b1, k, files[k]) && k !in SectorsOf(files[k])
      ensures Readable(d0, files[k]) && Readable(d1, files[k])
      ensures k != 0 ==> Content(d1, files[k]) == Content(d0, files[k])
    {
      FileOf(d0, files, own, k);
      RemovedOther(d0, d1, files, own, b0, b1, h, k);
    }
    FileOf(d0, files, own, 0);
    RemovedMarks(files, own, b0, b1, h) by { assert MarksAre(b0, own); }
    assert files'[0] == files[0];
    assert FilesOnDisk(d1, b1, files');
  }

  lemma RemovedMarks(files: map<int, File>, own: map<int, int>, b0: seq<bool>, b1: seq<bool>, h: int)
    requires Owns(files, own) && h in files && MarksAre(b0, own) && Freed(b0, b1, SectorsOf(files[h]) + [h])
    ensures MarksAre(b1, OwnLess(own, h))
  {
    hide SectorsOf, Owns;
    OwnsLess(files, own, h);
    forall s | 0 <= s < NUM_SECTORS
      ensures b1[s] <==> s in OwnLess(own, h)
    {
      assert s in SectorsOf(files[h]) + [h] <==> Uses(h, files[h], s);
    }
  }

  lemma RemovedOther(d0: seq<Sector>, d1: seq<Sector>, files: map<int, File>, own: map<int, int>,
                     b0: seq<bool>, b1: seq<bool>, h: int, k: int)
    requires Owns(files, own) && 0 in files && h in files && k in files && k != h && |b0| == NUM_SECTORS
    requires Freed(b0, b1, SectorsOf(files[h]) + [h]) && SameBut(d0, d1, files[0].data)
    requires HeaderOnDisk(d0, b0, k, files[k]) && k !in SectorsOf(files[k])
    ensures HeaderOnDisk(d1, b1, k, files[k])
    ensures Readable(d0, files[k]) && Readable(d1, files[k])
    ensures k != 0 ==> Content(d1, files[k]) == Content(d0, files[k])
  {
    hide Content, FileHeld, HeaderOnDisk, Owns, SectorsOf, Readable, SameBut;
    FileMarked(d0, b0, k, files[k]);
    forall s | s in SectorsOf(files[k]) && 0 <= s < NUM_SECTORS
      ensures b1[s]
    {
      assert Uses(k, files[k], s);
      if s in SectorsOf(files[h]) + [h] {
        assert Uses(h, files[h], s);
        OneOwner(files, own, h, k, s);
      }
    }
    HeaderSize(d0, b0, k, files[k]);
    FileFrame(d0, d0, b0, b1, k, files[k]);
    DataWriteFrame(files, own, b1, d0, d1, 0, k);
  }

  lemma HeaderSize(disk: seq<Sector>, bits: seq<bool>, h: int, f: File)
    requires HeaderOnDisk(disk, bits, h, f)
    ensures |disk| == NUM_SECTORS
  {
  }

  // ---------------------------------------------------------------- facts for the class

  lemma SoundParts(disk: seq<Sector>, files: map<int, File>, own: map<int, int>)
    requires Sound(disk, files, own)
    ensures FSInv(disk, files, own)
    ensures 0 in files && 1 in files && |disk| == |FreeBits(disk, files)| == NUM_SECTORS
    ensures HeaderOnDisk(disk, FreeBits(disk, files), 1, files[1])
    ensures Readable(disk, files[1]) && files[1].length == 2 * DIRECTORY_BYTES && |files[1].data| == DIRECTORY_BLOCKS
    ensures WordAt(Content(disk, files[1]), 0) == NUM_DIR_ENTRIES
    ensures files[0].length == FREE_MAP_FILE_SIZE && forall h :: h in files ==> 0 <= h < NUM_SECTORS
    ensures NamesPadded(DirEntries(disk, files)) && |DirEntries(disk, files)| == NUM_DIR_ENTRIES
  {
    hide FSInv, Content, HeaderOnDisk, FreeBits;
    FileOf(disk, files, own, 1);
    forall h | h in files
      ensures 0 <= h < NUM_SECTORS
    {
      FileOf(disk, files, own, h);
    }
  }

  lemma PlaceOf(disk: seq<Sector>, files: map<int, File>, own: map<int, int>, name: Name, k: int)
    requires Sound(disk, files, own) && IsPlaceOf(DirEntries(disk, files), name, k)
    ensures var es := DirEntries(disk, files);
            k != -1 ==> 0 <= k < |es| && es[k].inUse && 1 < es[k].sector && es[k].sector in files && !es[k].isDirectory
    ensures k == -1 <==> IsPlaceOf(DirEntries(disk, files), name, -1)
  {
    hide FSInv, DirReady, DirEntries;
    SoundParts(disk, files, own);
  }

  lemma IsFreeBits(disk: seq<Sector>, files: map<int, File>)
    requires 0 in files && IsMapFile(disk, files[0])
    ensures FreeBits(disk, files) == StoredBits(disk, files[0])
  {
  }

  /** The sectors that a new file of this size takes: its header's, and what its data needs. */
  function NewFileNeeds(size: nat): nat {
    1 + NeedAfter(0, BlocksOf(size))
  }

  /** `d1`, `files'` come from `d0`, `files` by creating a file in sector `s` and entry `k`. */
  ghost predicate Created(d0: seq<Sector>, d1: seq<Sector>, files: map<int, File>, files': map<int, File>,
                          name: Name, size: nat, protection: Word, s: int, k: int) {
    && s !in files && s in files' && files' == files[s := files'[s]]
    && 0 <= s < |d1| && Words(d1[s])[0] == protection
    && files'[s].length == size
    && NewEntry(DirEntries(d0, files), DirEntries(d1, files'), name, s, k)
    && CountClear(FreeBits(d1, files')) == CountClear(FreeBits(d0, files)) - NewFileNeeds(size)
    && OthersSame(d0, d1, files, DIRECTORY_SECTOR)
  }

  /** `es'` is the table `es` with a file in the entry `k`, which was free. */
  ghost predicate NewEntry(es: seq<Entry>, es': seq<Entry>, name: Name, s: int, k: int) {
    && 0 <= k < |es| && !es[k].inUse && es' == es[k := Entry(false, true, s, Key(name))]
    && HoldsName(es'[k].name, name)
  }

  ghost predicate HasFreeEntry(es: seq<Entry>) {
    exists i :: 0 <= i < |es| && !es[i].inUse
  }

  /** What adding a file does to the table `es` in memory: it takes a free entry, or doubles the table. */
  ghost predicate EntryMade(es: seq<Entry>, view: seq<Entry>, name: Name, s: int, k: int) {
    && |es| == NUM_DIR_ENTRIES
    && 0 <= k < |view| && view[k] == Entry(false, true, s, Key(name)) && HoldsName(view[k].name, name)
    && if HasFreeEntry(es) then NewEntry(es, view, name, s, k) else |view| == 2 * NUM_DIR_ENTRIES
  }

  /** What becomes of the creation of a file whose name is not in the directory. When the map, which has
      `clear` clear sectors, cannot hold header and data the answer is no. When it has room for all the
      file needs and the directory has a free entry the file is created. Everything else goes wrong: the
      code stops on a failed assertion, with the stored map as it was, or answers yes and leaves a disk
      that no file system in order has. A directory that has to grow for a file that would fit stops the
      code exactly when the stored map has fewer than 4 clear sectors; by then the directory says that
      it has 20 entries. A map without room for the index sectors stops it exactly when the allocation
      does not go on (`GoesOn`). */
  ghost predicate Creation(success: bool, stopped: bool, d0: seq<Sector>, d1: seq<Sector>, files: map<int, File>,
                           own: map<int, int>, files': map<int, File>, name: Name, size: nat, protection: Word, s: int,
                           k: int) {
    var clear, entry := CountClear(FreeBits(d0, files)), HasFreeEntry(DirEntries(d0, files));
    var roomy := NewFileNeeds(size) <= clear;
    var goesOn := if roomy then entry || GROWN_BLOCKS <= clear else GoesOn(0, clear - 1, BlocksOf(size));
    && (success <==> BlocksOf(size) < clear && goesOn)
    && (stopped <==> BlocksOf(size) < clear && !goesOn)
    && (!success && !stopped ==> d1 == d0)
    && (success && roomy && entry <==> files' != files)
    && (success && roomy && entry ==> Created(d0, d1, files, files', name, size, protection, s, k))
    && (stopped ==> Halted(d0, d1, files, own) && (roomy ==> !DirReady(d1, files)))
    && (success && !(roomy && entry) ==> Ruined(d1, s) && Leads(d1, name, s))
  }

  /** A new file has been allocated in a copy of the map and on the disk, but neither its header
      nor the directory nor the map have been written: `d0`, `d1` are the disk before and after. */
  ghost predicate Pending(d0: seq<Sector>, d1: seq<Sector>, files: map<int, File>, own: map<int, int>, s: int, g: File,
                          size: nat, taken: seq<int>, b1: seq<bool>, slots: seq<int>) {
    && Sound(d0, files, own) && s !in files
    && 0 <= s < NUM_SECTORS && |FreeBits(d0, files)| == NUM_SECTORS && !FreeBits(d0, files)[s]
    && Took(FreeBits(d0, files)[s := true], b1, taken)
    && CountClear(b1) == CountClear(FreeBits(d0, files)) - NewFileNeeds(size)
    && FileGrown(EMPTY_FILE, g, size, BlocksOf(size), taken)
    && FileHeld(slots, g.length, d1, b1, g)
    && SameBut(d0, d1, g.index + [g.root])
  }

  /** An allocation for a new file with header `s` has ended, whether or not it has come out short. */
  ghost predicate Tried(d0: seq<Sector>, d1: seq<Sector>, files: map<int, File>, own: map<int, int>, s: int,
                        b2: seq<bool>) {
    && Sound(d0, files, own) && s !in files
    && 0 <= s < NUM_SECTORS && |FreeBits(d0, files)| == NUM_SECTORS && !FreeBits(d0, files)[s]
    && Kept(d0, d1, FreeBits(d0, files)[s := true], b2, [-1])
  }

  /** The header of a new file, in memory: in order (`whole`), or with data sectors missing. */
  ghost predicate InHand(d0: seq<Sector>, d1: seq<Sector>, files: map<int, File>, own: map<int, int>, slots: seq<int>,
                         numBytes: int, s: int, g: File, size: nat, taken: seq<int>, b2: seq<bool>, whole: bool) {
    && Tried(d0, d1, files, own, s, b2) && |slots| == NUM_DIRECT
    && if whole then Pending(d0, d1, files, own, s, g, size, taken, b2, slots) && numBytes == g.length
       else slots[1] != -1 && 0 <= numBytes < 0x8000_0000
  }

  lemma EmptyHeld(disk: seq<Sector>, bits: seq<bool>)
    requires |disk| == |bits| == NUM_SECTORS
    ensures FileHeld(SlotsOf(EMPTY_FILE), 0, disk, bits, EMPTY_FILE)
  {
  }

  // ---------------------------------------------------------------- format

  /** The map with the two header sectors marked. */
  ghost function FirstMarks(): (bits: seq<bool>)
    ensures |bits| == NUM_SECTORS
  {
    seq(NUM_SECTORS, _ => false)[FREE_MAP_SECTOR := true][DIRECTORY_SECTOR := true]
  }

  lemma FirstCount()
    ensures CountClear(FirstMarks()) == NUM_SECTORS - 2
  {
    var z := seq(NUM_SECTORS, _ => false);
    AllClear(NUM_SECTORS);
    CountSet(z, 0);
    CountSet(z[0 := true], 1);
  }

  /** The headers of the map and the directory are on the disk, and exactly their sectors are
      marked in `bits`. */
  ghost predicate Formatted(disk: seq<Sector>, bits: seq<bool>, f0: File, f1: File) {
    && |disk| == |bits| == NUM_SECTORS
    && HeaderOnDisk(disk, bits, 0, f0) && HeaderOnDisk(disk, bits, 1, f1)
    && f0.length == FREE_MAP_FILE_SIZE && f1.length == DIRECTORY_BYTES
    && |f1.data| == DivRoundUp(DIRECTORY_BYTES, SECTOR_SIZE)
    && (forall s :: s in SectorsOf(f0) ==> s != 0 && s != 1 && s !in SectorsOf(f1))
    && (forall s :: s in SectorsOf(f1) ==> s != 0 && s != 1)
    && (forall s :: 0 <= s < NUM_SECTORS ==> (bits[s] <==> Uses(0, f0, s) || Uses(1, f1, s)))
    && CountClear(bits) == NUM_SECTORS - 9
  }

  ghost function FirstOwners(f0: File, f1: File): map<int, int> {
    map s | s in {0, 1} + (set x | x in SectorsOf(f0)) + (set x | x in SectorsOf(f1)) ::
      if Uses(0, f0, s) then 0 else 1
  }

  /** A file stays in order while its index sectors keep their contents and its sectors their marks. */
  lemma HeldFrame(slots: seq<int>, n: int, d0: seq<Sector>, d1: seq<Sector>, b0: seq<bool>, b1: seq<bool>, f: File)
    requires FileHeld(slots, n, d0, b0, f) && |d1| == |d0| && |b1| == NUM_SECTORS
    requires forall s :: s in SectorsOf(f) && s !in f.data && 0 <= s < |d0| ==> d1[s] == d0[s]
    requires forall s :: s in SectorsOf(f) && 0 <= s < NUM_SECTORS ==> b1[s]
    ensures FileHeld(slots, n, d1, b1, f)
  {
    if f.data != [] {
      assert f.root in SectorsOf(f);
      forall j | 0 <= j < |f.index|
        ensures Words(d1[f.index[j]]) == Pad(Chunk(f.data, j))
      {
        assert f.index[j] in f.index && f.index[j] in SectorsOf(f);
      }
    }
  }

  lemma WrittenHeader(slots: seq<int>, n: int, disk: seq<Sector>, bits: seq<bool>, h: int, f: File)
    requires FileHeld(slots, n, disk, bits, f) && 0 <= h < |disk|
    requires Words(disk[h])[3..] == slots[..NUM_DIRECT - 1] && Words(disk[h])[1] == n
    ensures HeaderOnDisk(disk, bits, h, f)
  {
    assert slots == slots[..NUM_DIRECT - 1] + [slots[NUM_DIRECT - 1]];
  }

  lemma NewSectorsOf(f: File, size: int, n: int, taken: seq<int>)
    requires FileGrown(EMPTY_FILE, f, size, n, taken)
    ensures forall s :: s in SectorsOf(f) <==> s in taken
  {
  }

  lemma FormatSteps(m: seq<bool>, b1: seq<bool>, b2: seq<bool>, d1: seq<Sector>, d2: seq<Sector>, d3: seq<Sector>,
                    d4: seq<Sector>, f0: File, f1: File, t0: seq<int>, t1: seq<int>, s0: seq<int>, s1: seq<int>)
    requires m == FirstMarks() && Took(m, b1, t0) && Took(b1, b2, t1)
    requires FileGrown(EMPTY_FILE, f0, FREE_MAP_FILE_SIZE, 1, t0) && FileGrown(EMPTY_FILE, f1, DIRECTORY_BYTES, 2, t1)
    requires FileHeld(s0, f0.length, d1, b1, f0) && FileHeld(s1, f1.length, d2, b2, f1)
    requires f0.length == FREE_MAP_FILE_SIZE && f1.length == DIRECTORY_BYTES && |f1.data| == 2
    requires SameBut(d1, d2, f1.index + [f1.root]) && |d1| == |d3| == |d4| == NUM_SECTORS
    requires forall s :: 0 <= s < NUM_SECTORS && s != 0 ==> d3[s] == d2[s]
    requires forall s :: 0 <= s < NUM_SECTORS && s != 1 ==> d4[s] == d3[s]
    requires Words(d3[0])[3..] == s0[..NUM_DIRECT - 1] && Words(d3[0])[1] == f0.length
    requires Words(d4[1])[3..] == s1[..NUM_DIRECT - 1] && Words(d4[1])[1] == f1.length
    requires CountClear(b2) == NUM_SECTORS - 9
    ensures Formatted(d4, b2, f0, f1)
  {
    hide FileHeld, FileGrown, SectorsOf, CountClear, HeaderOnDisk, EMPTY_FILE, Words;
    NewSectorsOf(f0, FREE_MAP_FILE_SIZE, 1, t0);
    NewSectorsOf(f1, DIRECTORY_BYTES, 2, t1);
    assert m[0] && m[1] && b1[0] && b1[1];
    assert forall s :: s in t0 ==> b1[s] && s !in t1;
    HeldIsReadable(s1, f1.length, d2, b2, f1);
    forall s | s in SectorsOf(f0) && 0 <= s < NUM_SECTORS
      ensures d4[s] == d1[s] && b2[s]
    {
      IndexInFile(s1, d2, b2, f1, s);
    }
    HeldFrame(s0, f0.length, d1, d4, b1, b2, f0);
    HeldFrame(s1, f1.length, d2, d4, b2, b2, f1);
    WrittenHeader(s0, f0.length, d4, b2, 0, f0);
    WrittenHeader(s1, f1.length, d4, b2, 1, f1);
  }

  lemma FormattedHeaders(disk: seq<Sector>, bits: seq<bool>, f0: File, f1: File)
    requires Formatted(disk, bits, f0, f1)
    ensures HeaderOnDisk(disk, bits, 0, f0) && HeaderOnDisk(disk, bits, 1, f1)
    ensures f0.length == FREE_MAP_FILE_SIZE && f1.length == DIRECTORY_BYTES
  {
  }

  /** Storing the map completes the invariant, and leaves room for the directory to grow. */
  lemma FormattedFS(d0: seq<Sector>, d1: seq<Sector>, bits: seq<bool>, f0: File, f1: File)
    requires Formatted(d0, bits, f0, f1)
    requires SameBut(d0, d1, f0.data) && IsMapFile(d1, f0) && StoredBits(d1, f0) == bits
    ensures FSInv(d1, map[0 := f0, 1 := f1], FirstOwners(f0, f1))
    ensures FreeBits(d1, map[0 := f0, 1 := f1]) == bits && HeaderOnDisk(d1, bits, 1, f1)
    ensures CountClear(bits) == NUM_SECTORS - 9 && Need(f1, 2) == |f1.data| == 2
  {
    hide HeaderOnDisk, SectorsOf, CountClear, StoredBits, IsMapFile, Content;
    var files, own := map[0 := f0, 1 := f1], FirstOwners(f0, f1);
    assert Owns(files, own) by {
      forall s | s in own
        ensures own[s] in files && Uses(own[s], files[own[s]], s)
      {
      }
    }
    forall s | 0 <= s < NUM_SECTORS
      ensures bits[s] <==> s in own
    {
    }
    DataWriteFrame(files, own, bits, d0, d1, 0, 0);
    DataWriteFrame(files, own, bits, d0, d1, 0, 1);
    assert |f1.data| == 2;
  }

  ghost predicate NoneInUse(es: seq<Entry>) {
    forall i :: 0 <= i < |es| ==> !es[i].inUse
  }

  /** The empty directory has been written. */
  lemma FormatDone(disk: seq<Sector>, files: map<int, File>, own: map<int, int>, g: File, taken: seq<int>,
                   table: seq<Byte>)
    requires files.Keys == {0, 1} && FSInv(disk, files[1 := g], OwnMore(own, 1, taken))
    requires Readable(disk, g) && StoredDir(Content(disk, g), table) && |table| == DIRECTORY_BYTES
    requires NoneInUse(Entries(table)) && g.length == 2 * DIRECTORY_BYTES && |g.data| == DIRECTORY_BLOCKS
    ensures Sound(disk, files[1 := g], OwnMore(own, 1, taken))
    ensures NoneInUse(DirEntries(disk, files[1 := g]))
    ensures FreeBits(disk, files) == FreeBits(disk, files[1 := g])
  {
    hide FSInv, Content, Readable, StoredDir, OwnMore, DirEntries;
    EntriesOfStored(disk, files[1 := g], table);
  }

  // ---------------------------------------------------------------- the class

  class FileSystem {
    const disk: SynchDisk
    const freeMapFile: OpenFile
    ghost var files: map<int, File>
    ghost var own: map<int, int>

    /** Formats the disk: headers and data for the map and the directory, the map, and an empty
        directory, which outgrows the 200 bytes its file is given by the 4 bytes of its size. */
    constructor (disk: SynchDisk)
      requires disk.Valid()
      modifies disk.sectors
      ensures Valid() && this.disk == disk
      ensures files.Keys == {FREE_MAP_SECTOR, DIRECTORY_SECTOR} && NoneInUse(Dir()) && Free() == NUM_SECTORS - 11
    {
      hide Sound, FreeBits, FileHeld, DirEntries, Formatted;
      var freeMap := new Bitmap(NUM_SECTORS);
      freeMap.Mark(FREE_MAP_SECTOR);
      freeMap.Mark(DIRECTORY_SECTOR);
      ghost var f0, f1;
      f0, f1 := FormatHeaders(disk, freeMap);
      var mapFile; ghost var fs, owners;
      mapFile, fs, owners := FormatFiles(disk, freeMap, f0, f1);
      this.disk, this.freeMapFile := disk, mapFile;
      this.files, this.own := fs, owners;
    }

    /** The two files are opened, and the map and an empty directory are stored in them. */
    static method FormatFiles(disk: SynchDisk, freeMap: Bitmap, ghost f0: File, ghost f1: File)
      returns (mapFile: OpenFile, ghost files: map<int, File>, ghost own: map<int, int>)
      requires disk.Valid() && freeMap.Valid() && freeMap.numBits == NUM_SECTORS
      requires Formatted(disk.View(), freeMap.Bits(), f0, f1)
      modifies disk.sectors
      ensures fresh(mapFile) && fresh(mapFile.hdr) && fresh(mapFile.hdr.dataSectors)
      ensures Sound(disk.View(), files, own) && files.Keys == {FREE_MAP_SECTOR, DIRECTORY_SECTOR}
      ensures NoneInUse(DirEntries(disk.View(), files)) && CountClear(FreeBits(disk.View(), files)) == NUM_SECTORS - 11
      ensures mapFile.Opens(disk.View(), FreeBits(disk.View(), files), files[FREE_MAP_SECTOR])
    {
      hide Sound, FSInv, FreeBits, FileHeld, DirEntries, HeaderOnDisk, CountClear, SameBut, Formatted, IsMapFile,
           NoneInUse, StoredBits, StoredDir, Need, Readable, Content, OwnMore, OthersSame;
      ghost var d, bits := disk.View(), freeMap.Bits();
      FormattedHeaders(d, bits, f0, f1);
      mapFile := new OpenFile(disk, FREE_MAP_SECTOR, bits, f0);
      StoreMap(freeMap, disk, mapFile, bits, f0);
      ghost var d1, files0, own0 := disk.View(), map[0 := f0, 1 := f1], FirstOwners(f0, f1);
      FormattedFS(d, d1, bits, f0, f1);
      ghost var g, taken, table;
      g, taken, table := FormatDirectory(disk, mapFile, files0, own0, f1);
      FormatDone(disk.View(), files0, own0, g, taken, table);
      files, own := files0[1 := g], OwnMore(own0, 1, taken);
    }

    static method FormatDirectory(disk: SynchDisk, mapFile: OpenFile, ghost files: map<int, File>,
                                  ghost own: map<int, int>, ghost f1: File)
      returns (ghost g: File, ghost taken: seq<int>, ghost table: seq<Byte>)
      requires disk.Valid() && FSInv(disk.View(), files, own) && 0 in files && 1 in files && files[1] == f1
      requires HeaderOnDisk(disk.View(), FreeBits(disk.View(), files), 1, f1) && f1.length == DIRECTORY_BYTES
      requires mapFile.Opens(disk.View(), FreeBits(disk.View(), files), files[0])
      requires Need(f1, 2) == |f1.data| == 2 && CountClear(FreeBits(disk.View(), files)) == NUM_SECTORS - 9
      modifies disk.sectors
      ensures g.length == 2 * DIRECTORY_BYTES && |g.data| == DIRECTORY_BLOCKS
      ensures CountClear(FreeBits(disk.View(), files)) == NUM_SECTORS - 11
      ensures FSInv(disk.View(), files[1 := g], OwnMore(own, 1, taken))
      ensures Readable(disk.View(), g) && StoredDir(Content(disk.View(), g), table) && |table| == DIRECTORY_BYTES
      ensures NoneInUse(Entries(table))
      ensures mapFile.Opens(disk.View(), FreeBits(disk.View(), files), files[0])
    {
      hide FSInv, FreeBits, FileHeld, HeaderOnDisk, CountClear, SameBut, StoredDir, Need, Readable, Content, OwnMore,
           OthersSame, EntryAt;
      var directory := new Directory(NUM_DIR_ENTRIES);
      table := directory.table[..];
      assert NoneInUse(directory.View());
      var directoryFile := new OpenFile(disk, DIRECTORY_SECTOR, FreeBits(disk.View(), files), f1);
      var outcome;
      outcome, g, taken := directory.WriteBack(disk, directoryFile, mapFile, files, own, f1);
    }

    /** The allocation of the two files and their headers. */
    static method FormatHeaders(disk: SynchDisk, freeMap: Bitmap) returns (ghost f0: File, ghost f1: File)
      requires disk.Valid() && freeMap.Valid() && freeMap.numBits == NUM_SECTORS
      requires freeMap.Bits() == FirstMarks()
      modifies disk.sectors, freeMap.words
      ensures Formatted(disk.View(), freeMap.Bits(), f0, f1)
    {
      hide FileHeld, HeaderOnDisk, CountClear, SameBut, FileGrown, Took, Formatted, SlotsOf, FirstMarks;
      ghost var m := freeMap.Bits();
      FirstCount();
      ghost var t0, t1;
      var mapHdr, dirHdr;
      mapHdr, f0, t0 := AllocateFirst(disk, freeMap, FREE_MAP_FILE_SIZE);
      ghost var b1, d1 := freeMap.Bits(), disk.View();
      dirHdr, f1, t1 := AllocateFirst(disk, freeMap, DIRECTORY_BYTES);
      ghost var b2, d2 := freeMap.Bits(), disk.View();
      mapHdr.WriteBack(disk, FREE_MAP_SECTOR);
      ghost var d3 := disk.View();
      dirHdr.WriteBack(disk, DIRECTORY_SECTOR);
      FormatSteps(m, b1, b2, d1, d2, d3, disk.View(), f0, f1, t0, t1, mapHdr.Slots(), dirHdr.Slots());
    }

    /** A header with its first data. */
    static method AllocateFirst(disk: SynchDisk, freeMap: Bitmap, size: nat)
      returns (hdr: FileHeader, ghost f: File, ghost taken: seq<int>)
      requires disk.Valid() && freeMap.Valid() && freeMap.numBits == NUM_SECTORS
      requires NeedAfter(0, BlocksOf(size)) <= CountClear(freeMap.Bits())
      modifies disk.sectors, freeMap.words
      ensures hdr.Valid() && fresh(hdr) && fresh(hdr.dataSectors) && 0 <= hdr.numBytes == f.length == size < 0x8000_0000
      ensures FileHeld(hdr.Slots(), hdr.numBytes, disk.View(), freeMap.Bits(), f) && |f.data| == BlocksOf(size)
      ensures FileGrown(EMPTY_FILE, f, size, BlocksOf(size), taken) && Took(old(freeMap.Bits()), freeMap.Bits(), taken)
      ensures CountClear(freeMap.Bits()) == CountClear(old(freeMap.Bits())) - NeedAfter(0, BlocksOf(size))
      ensures SameBut(old(disk.View()), disk.View(), f.index + [f.root])
    {
      hide FileHeld, CountClear, SameBut, FileGrown, Took, SlotsOf, Kept;
      hdr := new FileHeader();
      EmptyHeld(disk.View(), freeMap.Bits());
      NeedOfFile(EMPTY_FILE, BlocksOf(size));
      var ok, trapped, missing;
      ok, trapped, missing, f, taken := hdr.Allocate(disk, freeMap, size, EMPTY_FILE);
      HeldIsReadable(hdr.Slots(), hdr.numBytes, disk.View(), freeMap.Bits(), f);
      SizeGrown(EMPTY_FILE, f, size, taken);
      GrownLength(EMPTY_FILE, f, size, BlocksOf(size), taken);
    }

    ghost predicate Valid()
      reads this, disk.sectors, freeMapFile.hdr, freeMapFile.hdr.dataSectors
    {
      && disk.Valid()
      && Sound(disk.View(), files, own)
      && freeMapFile.Opens(disk.View(), FreeBits(disk.View(), files), files[FREE_MAP_SECTOR])
    }

    ghost function Free(): nat
      reads this, disk.sectors
    {
      CountClear(FreeBits(disk.View(), files))
    }

    ghost function Dir(): seq<Entry>
      reads this, disk.sectors
    {
      DirEntries(disk.View(), files)
    }

    /** The first steps of `Create` and `Remove`: the directory is read from its file. */
    method OpenDirectory() returns (directory: Directory, dirFile: OpenFile)
      requires disk.Valid() && Sound(disk.View(), files, own)
      ensures fresh(directory) && fresh(directory.table) && directory.Valid() && directory.tableSize == NUM_DIR_ENTRIES
      ensures directory.View() == Dir()
      ensures fresh(dirFile) && fresh(dirFile.hdr) && fresh(dirFile.hdr.dataSectors)
      ensures DIRECTORY_SECTOR in files && dirFile.Opens(disk.View(), FreeBits(disk.View(), files), files[1])
      ensures dirFile.diskSector == DIRECTORY_SECTOR
    {
      hide Sound, FreeBits, FileHeld, DirEntries, NamesPadded, Entries, StoredDir, Content, Readable;
      ghost var d0, b0 := disk.View(), FreeBits(disk.View(), files);
      SoundParts(d0, files, own);
      directory := new Directory(NUM_DIR_ENTRIES);
      dirFile := new OpenFile(disk, DIRECTORY_SECTOR, b0, files[1]);
      directory.FetchFrom(disk, dirFile, b0, files[1]);
      EntriesOfStored(d0, files, directory.table[..]);
    }

    /** Creates a file. Answers no, and changes nothing on the disk, when the name is taken or the
        map has too few clear sectors for the header and the data; what becomes of it otherwise,
        `Creation` says. */
    method Create(name: Name, initialSize: nat, protection: Word)
      returns (success: bool, stopped: bool, ghost s: int, ghost k: int)
      requires Valid()
      modifies this, disk.sectors
      ensures !IsPlaceOf(old(Dir()), name, -1) ==>
                !success && !stopped && disk.View() == old(disk.View()) && files == old(files)
      ensures IsPlaceOf(old(Dir()), name, -1) ==>
                Creation(success, stopped, old(disk.View()), disk.View(), old(files), old(own), files,
                         name, initialSize, protection, s, k)
      ensures !stopped && (success ==> NewFileNeeds(initialSize) <= old(Free()) && HasFreeEntry(old(Dir()))) ==> Valid()
    {
      hide Sound, FreeBits, FileHeld, CountClear, DirEntries, Creation, IsPlaceOf, NamesPadded, Key, HasFreeEntry,
           NewFileNeeds;
      SoundParts(disk.View(), files, own);
      var directory, dirFile := OpenDirectory();
      var found; ghost var place;
      found, place := directory.Find(name);
      PlaceOf(disk.View(), files, own, name, place);
      if found != -1 {
        return false, false, -1, -1;
      }
      success, stopped, s, k := CreateNew(directory, dirFile, name, initialSize, protection);
    }

    /** `Create` for a name that is not in the directory: a sector is taken for the header, and the
        name is entered in the copy of the directory. */
    method CreateNew(directory: Directory, dirFile: OpenFile, name: Name, size: nat, protection: Word)
      returns (success: bool, stopped: bool, ghost s: int, ghost k: int)
      requires Valid()
      requires directory.Valid() && directory.tableSize == NUM_DIR_ENTRIES && directory.View() == Dir()
      requires DIRECTORY_SECTOR in files && dirFile.Opens(disk.View(), FreeBits(disk.View(), files), files[1])
      requires dirFile.diskSector == DIRECTORY_SECTOR
      requires dirFile.hdr != freeMapFile.hdr && dirFile.hdr.dataSectors != freeMapFile.hdr.dataSectors
      requires IsPlaceOf(Dir(), name, -1)
      modifies this, disk.sectors, dirFile, dirFile.hdr, dirFile.hdr.dataSectors, directory, directory.table
      ensures Creation(success, stopped, old(disk.View()), disk.View(), old(files), old(own), files, name, size,
                       protection, s, k)
      ensures !stopped && (success ==> NewFileNeeds(size) <= old(Free()) && HasFreeEntry(old(Dir()))) ==> Valid()
    {
      hide Sound, FreeBits, FileHeld, CountClear, DirEntries, Creation, IsPlaceOf, NamesPadded, Key, HasFreeEntry,
           IsMapFile, StoredBits, NewFileNeeds, EntryMade;
      s, k, stopped := -1, -1, false;
      ghost var d0, b0, es := disk.View(), FreeBits(disk.View(), files), Dir();
      SoundParts(d0, files, own);
      var freeMap := new Bitmap(NUM_SECTORS);
      FetchMap(freeMap, disk, freeMapFile, b0, files[0]);
      IsFreeBits(d0, files);
      var sector := freeMap.FindAndSet();
      if sector == -1 {
        NoneCreated(d0, files, own, name, size, protection, s, k);
        return false, false, s, k;
      }
      var added;
      added, k := directory.Add(name, sector);
      if !added {
        assert false;
      }
      IsEntryMade(es, directory.View(), name, sector, k);
      s := sector;
      success, stopped := AllocateNew(directory, dirFile, freeMap, name, size, protection, sector, k);
    }

    /** The data of the new file is allocated; only when this succeeds is anything else written. */
    method AllocateNew(directory: Directory, dirFile: OpenFile, freeMap: Bitmap, name: Name, size: nat,
                       protection: Word, s: int, ghost k: int) returns (success: bool, stopped: bool)
      requires Valid() && directory.Valid()
      requires freeMap.Valid() && freeMap.numBits == NUM_SECTORS
      requires DIRECTORY_SECTOR in files && dirFile.Opens(disk.View(), FreeBits(disk.View(), files), files[1])
      requires dirFile.diskSector == DIRECTORY_SECTOR
      requires dirFile.hdr != freeMapFile.hdr && dirFile.hdr.dataSectors != freeMapFile.hdr.dataSectors
      requires IsPlaceOf(Dir(), name, -1) && EntryMade(Dir(), directory.View(), name, s, k)
      requires 0 <= s < |FreeBits(disk.View(), files)| && !FreeBits(disk.View(), files)[s]
      requires freeMap.Bits() == FreeBits(disk.View(), files)[s := true] && CountClear(freeMap.Bits()) == Free() - 1
      modifies this, disk.sectors, freeMap.words, dirFile, dirFile.hdr, dirFile.hdr.dataSectors
      ensures Creation(success, stopped, old(disk.View()), disk.View(), old(files), old(own), files, name, size,
                       protection, s, k)
      ensures !stopped && (success ==> NewFileNeeds(size) <= old(Free()) && HasFreeEntry(old(Dir()))) ==> Valid()
    {
      hide Sound, FreeBits, FileHeld, CountClear, DirEntries, Created, Creation, IsPlaceOf, Key, HasFreeEntry,
           EntryMade, Tried, Halted, Ruined, Leads, DirReady, InHand, NewFileNeeds, BlocksOf,
           GoesOn, Unpack, Bitmap.Bits;
      ghost var d0, files0, own0, roomy := disk.View(), files, own, NewFileNeeds(size) <= Free();
      SoundParts(d0, files, own);
      var hdr, ok; ghost var g, taken;
      hdr, ok, stopped, g, taken := TryAllocate(freeMap, size, s);
      if stopped {
        StillFS(d0, disk.View(), disk.View(), files, own, s, freeMap.Bits());
        CreationStops(d0, disk.View(), files, own, name, size, protection, s, k);
        return false, true;
      }
      if !ok {
        NoneCreated(d0, files, own, name, size, protection, s, k);
        return false, false;
      }
      hdr.SetProtection(protection);
      stopped := Enter(directory, dirFile, freeMap, hdr, name, size, protection, s, k, d0, g, taken, roomy);
      success := !stopped;
      CreationEnds(stopped, d0, disk.View(), files0, own0, files, name, size, protection, s, k);
    }

    /** The allocation for a new file. */
    method TryAllocate(freeMap: Bitmap, size: nat, ghost s: int)
      returns (hdr: FileHeader, ok: bool, stopped: bool, ghost g: File, ghost taken: seq<int>)
      requires Valid() && freeMap.Valid() && freeMap.numBits == NUM_SECTORS
      requires 0 <= s < |FreeBits(disk.View(), files)| && !FreeBits(disk.View(), files)[s]
      requires freeMap.Bits() == FreeBits(disk.View(), files)[s := true] && CountClear(freeMap.Bits()) == Free() - 1
      modifies disk.sectors, freeMap.words
      ensures fresh(hdr) && fresh(hdr.dataSectors) && hdr.Valid()
      ensures ok || stopped <==> BlocksOf(size) < old(Free())
      ensures stopped ==> !ok && old(Free()) < NewFileNeeds(size) && !GoesOn(0, old(Free()) - 1, BlocksOf(size))
      ensures ok ==> NewFileNeeds(size) <= old(Free()) || GoesOn(0, old(Free()) - 1, BlocksOf(size))
      ensures !ok && !stopped ==> disk.View() == old(disk.View())
      ensures ok || stopped ==> Tried(old(disk.View()), disk.View(), files, own, s, freeMap.Bits())
      ensures ok ==> InHand(old(disk.View()), disk.View(), files, own, hdr.Slots(), hdr.numBytes, s, g, size, taken,
                            freeMap.Bits(), NewFileNeeds(size) <= old(Free()))
    {
      hide Sound, FreeBits, FileHeld, CountClear, Took, FileGrown, SameBut, Pending, Need, SlotsOf, Kept, Tried, InHand,
           NewFileNeeds, GoesOn;
      ghost var d0, b1 := disk.View(), freeMap.Bits();
      SoundParts(d0, files, own);
      NotAFile(d0, files, own, s);
      NeedsOfNewFile(size);
      hdr := new FileHeader();
      EmptyHeld(d0, b1);
      var missing;
      ok, stopped, missing, g, taken := hdr.Allocate(disk, freeMap, size, EMPTY_FILE);
      ghost var b2 := freeMap.Bits();
      if ok || stopped {
        assert EMPTY_FILE.index + [EMPTY_FILE.root] == [-1];
        IsTried(d0, disk.View(), files, own, s, b2);
      }
      ok := ok && !stopped;
      if ok {
        if missing == 0 {
          HeldIsReadable(hdr.Slots(), hdr.numBytes, disk.View(), b2, g);
          IsPending(d0, disk.View(), files, own, s, g, size, taken, b2, hdr.Slots(), b1);
        }
        IsInHand(d0, disk.View(), files, own, hdr.Slots(), hdr.numBytes, s, g, size, taken, b2, missing == 0);
      }
    }

    /** The last steps of `Create`: header, directory and map are written back. The allocation has come out
        in order (`whole`), or short. */
    method Enter(directory: Directory, dirFile: OpenFile, freeMap: Bitmap, hdr: FileHeader, name: Name, size: nat,
                 protection: Word, s: int, ghost k: int, ghost d0: seq<Sector>, ghost g: File, ghost taken: seq<int>,
                 ghost whole: bool) returns (stopped: bool)
      requires disk.Valid() && directory.Valid()
      requires freeMap.Valid() && freeMap.numBits == NUM_SECTORS && hdr.Valid()
      requires InHand(d0, disk.View(), files, own, hdr.Slots(), hdr.numBytes, s, g, size, taken, freeMap.Bits(), whole)
      requires hdr.protection == protection && FREE_MAP_SECTOR in files && DIRECTORY_SECTOR in files
      requires dirFile.Opens(d0, FreeBits(d0, files), files[1]) && dirFile.diskSector == DIRECTORY_SECTOR
      requires freeMapFile.Opens(d0, FreeBits(d0, files), files[0])
      requires dirFile.hdr != freeMapFile.hdr && dirFile.hdr.dataSectors != freeMapFile.hdr.dataSectors
      requires IsPlaceOf(DirEntries(d0, files), name, -1) &&
               EntryMade(DirEntries(d0, files), directory.View(), name, s, k)
      modifies this, disk.sectors, dirFile, dirFile.hdr, dirFile.hdr.dataSectors
      ensures stopped <==>
                !HasFreeEntry(DirEntries(d0, old(files))) && CountClear(FreeBits(d0, old(files))) < GROWN_BLOCKS
      ensures stopped ==>
                files == old(files) && Halted(d0, disk.View(), files, old(own)) && !DirReady(disk.View(), files)
      ensures !stopped && whole && HasFreeEntry(DirEntries(d0, old(files))) ==>
                Valid() && Created(d0, disk.View(), old(files), files, name, size, protection, s, k)
      ensures !stopped && !(whole && HasFreeEntry(DirEntries(d0, old(files)))) ==>
                files == old(files) && Ruined(disk.View(), s) && Leads(disk.View(), name, s)
    {
      hide Sound, FreeBits, FileHeld, DirEntries, Created, IsPlaceOf, Key, FSInv, StoredDir, IsMapFile, StoredBits,
           Readable, Content, Entries, InHand, DirWritten, EntryMade, HasFreeEntry, CountClear, DirReady, Halted,
           Ruined, Leads, OwnMore, SameBut;
      ghost var d1, b2, slots, table := disk.View(), freeMap.Bits(), hdr.Slots(), directory.table[..];
      ghost var files0, own0 := files, own;
      ghost var room := HasFreeEntry(DirEntries(d0, files));
      ghost var d2, g1, grown;
      stopped, d2, g1, grown := EnterDirectory(directory, dirFile, hdr, name, size, protection, s, k, d0, g, taken, b2,
                                               whole);
      if stopped {
        return;
      }
      ghost var d3 := disk.View();
      StoreMap(freeMap, disk, freeMapFile, b2, files[0]);
      if room && whole {
        EnteredWell(d0, d1, d2, d3, disk.View(), files, own, name, s, k, g, size, taken, b2, protection, g1, grown,
                    table, slots);
        files, own := files0[s := g], OwnMore(own0, s, [s] + taken);
      } else {
        EnteredRuins(d0, d1, d2, d3, disk.View(), files, own, name, s, k, g, size, taken, b2, protection, g1, grown,
                     table, whole, slots);
      }
    }

    /** The first two of them. `d2` is the disk between them. */
    method EnterDirectory(directory: Directory, dirFile: OpenFile, hdr: FileHeader, ghost name: Name, ghost size: nat,
                          protection: Word, s: int, ghost k: int, ghost d0: seq<Sector>, ghost g: File,
                          ghost taken: seq<int>, ghost b2: seq<bool>, ghost whole: bool)
      returns (stopped: bool, ghost d2: seq<Sector>, ghost g1: File, ghost grown: seq<int>)
      requires disk.Valid() && directory.Valid() && hdr.Valid()
      requires InHand(d0, disk.View(), files, own, hdr.Slots(), hdr.numBytes, s, g, size, taken, b2, whole)
      requires hdr.protection == protection && FREE_MAP_SECTOR in files && DIRECTORY_SECTOR in files
      requires dirFile.Opens(d0, FreeBits(d0, files), files[1]) && dirFile.diskSector == DIRECTORY_SECTOR
      requires freeMapFile.Opens(d0, FreeBits(d0, files), files[0])
      requires dirFile.hdr != freeMapFile.hdr && dirFile.hdr.dataSectors != freeMapFile.hdr.dataSectors
      requires EntryMade(DirEntries(d0, files), directory.View(), name, s, k)
      modifies disk.sectors, dirFile, dirFile.hdr, dirFile.hdr.dataSectors
      ensures stopped <==> !HasFreeEntry(DirEntries(d0, files)) && CountClear(FreeBits(d0, files)) < GROWN_BLOCKS
      ensures stopped ==> Halted(d0, disk.View(), files, own) && !DirReady(disk.View(), files)
      ensures !stopped ==>
                && DirWritten(d0, old(disk.View()), d2, disk.View(), files, own, name, s, k, g, size, taken, b2,
                              protection, g1, grown, directory.table[..], whole, old(hdr.Slots()))
                && freeMapFile.Opens(disk.View(), b2, files[0])
                && files[0].length == FREE_MAP_FILE_SIZE
    {
      hide Sound, FreeBits, FileHeld, DirEntries, FSInv, Entered, SameBut, HeaderOnDisk, StoredDir, IsMapFile,
           StoredBits, Readable, Content, Entries, Tried, EntryMade, HasFreeEntry, CountClear, DirReady, Halted,
           Outgrown, TableStored, Need, OwnMore, InHand, DirWritten;
      ghost var d1, b0, slots := disk.View(), FreeBits(d0, files), hdr.Slots();
      HandSector(d0, d1, files, own, slots, hdr.numBytes, s, g, size, taken, b2, whole);
      hdr.WriteBack(disk, s);
      d2 := disk.View();
      HandWritten(d0, d1, d2, files, own, slots, hdr.numBytes, s, g, size, taken, b2, whole, protection);
      HeaderCopy(dirFile.hdr.Slots(), dirFile.hdr.numBytes, d0, b0, d2, b0, 1, files[1]);
      HeaderCopy(freeMapFile.hdr.Slots(), freeMapFile.hdr.numBytes, d0, b0, d2, b0, 0, files[0]);
      TableSize(DirEntries(d0, files), directory.View(), name, s, k);
      var outcome;
      outcome, g1, grown := directory.WriteBack(disk, dirFile, freeMapFile, files, own, files[1]);
      ghost var d3 := disk.View();
      stopped := outcome != Done;
      if !HasFreeEntry(DirEntries(d0, files)) {
        FullGrowth(outcome, d0, d1, d2, d3, files, own, s, b2, g1);
      }
      if !stopped {
        MapHeader(d0, d1, d2, d3, files, own, s, b2, g1, grown, directory.table[..]);
        HeaderCopy(freeMapFile.hdr.Slots(), freeMapFile.hdr.numBytes, d2, b0, d3, b2, 0, files[0]);
        IsDirWritten(d0, d1, d2, d3, files, own, name, s, k, g, size, taken, b2, protection, g1, grown,
                     directory.table[..], whole, slots);
      }
    }

    /** Removes a file: its sectors and its entry are free again, and nothing else has changed. */
    method Remove(name: Name) returns (ok: bool, ghost s: int, ghost k: int)
      requires Valid()
      modifies this, disk.sectors
      ensures Valid()
      ensures ok <==> !IsPlaceOf(old(Dir()), name, -1)
      ensures !ok ==> disk.View() == old(disk.View()) && files == old(files)
      ensures ok ==>
                IsPlaceOf(old(Dir()), name, k) && FileGone(old(disk.View()), disk.View(), old(files), files, s, k)
    {
      hide Sound, FreeBits, FileHeld, CountClear, DirEntries, IsPlaceOf, NamesPadded, Key, FileGone;
      s, k := -1, -1;
      SoundParts(disk.View(), files, own);
      var directory, dirFile := OpenDirectory();
      var sector, isDirectory; ghost var k';
      sector, k := directory.Find(name);
      isDirectory, k' := directory.JudgeDirectory(name);
      PlaceOf(disk.View(), files, own, name, k);
      PlaceOf(disk.View(), files, own, name, k');
      if sector == -1 || isDirectory {
        return false, -1, -1;
      }
      s := sector;
      RemoveFound(directory, dirFile, name, sector, k);
      ok := true;
    }

    /** The sectors of the file are given back in a copy of the map, each of them once. */
    method FreeFile(sector: int) returns (freeMap: Bitmap)
      requires Valid() && sector in files
      ensures fresh(freeMap) && fresh(freeMap.words) && freeMap.Valid() && freeMap.numBits == NUM_SECTORS
      ensures Freed(FreeBits(disk.View(), files), freeMap.Bits(), SectorsOf(files[sector]) + [sector])
    {
      hide Sound, FreeBits, FileHeld, DirEntries, Freed, HeaderOnDisk, FSInv, IsMapFile, StoredBits, SectorsOf;
      ghost var d0, b0, f := disk.View(), FreeBits(disk.View(), files), files[sector];
      SoundParts(d0, files, own);
      FileOf(d0, files, own, sector);
      var hdr := new FileHeader();
      hdr.FetchFrom(disk, sector);
      HeaderIsHeld(d0, b0, sector, f);
      freeMap := new Bitmap(NUM_SECTORS);
      FetchMap(freeMap, disk, freeMapFile, b0, files[0]);
      hdr.Deallocate(disk, freeMap, f);
      ghost var b1 := freeMap.Bits();
      assert freeMap.Bits()[sector] by { StaysMarked(b0, b1, SectorsOf(f), sector); }
      freeMap.Clear(sector);
      FreedRoot(b0, b1, SectorsOf(f), sector);
    }

    /** `Remove` once the file has been found. */
    method RemoveFound(directory: Directory, dirFile: OpenFile, name: Name, sector: int, ghost k: int)
      requires Valid()
      requires directory.Valid() && directory.tableSize == NUM_DIR_ENTRIES && directory.View() == Dir()
      requires DIRECTORY_SECTOR in files && dirFile.Opens(disk.View(), FreeBits(disk.View(), files), files[1])
      requires dirFile.diskSector == DIRECTORY_SECTOR
      requires dirFile.hdr != freeMapFile.hdr && dirFile.hdr.dataSectors != freeMapFile.hdr.dataSectors
      requires IsPlaceOf(Dir(), name, k) && k != -1 && sector == Dir()[k].sector
      modifies this, disk.sectors, dirFile, dirFile.hdr, dirFile.hdr.dataSectors, directory.table
      ensures Valid()
      ensures FileGone(old(disk.View()), disk.View(), old(files), files, sector, k)
    {
      hide Sound, FreeBits, FileHeld, DirEntries, IsPlaceOf, Key, FileGone, Freed, HeaderOnDisk, FSInv, IsMapFile,
           StoredBits, SectorsOf, NamesPadded, StoredDir, Content, Readable, Entries;
      ghost var d0, b0, es := disk.View(), FreeBits(disk.View(), files), Dir();
      SoundParts(d0, files, own);
      PlaceOf(d0, files, own, name, k);
      ghost var f, files1, own1 := files[sector], files - {sector}, OwnLess(own, sector);
      var freeMap := FreeFile(sector);
      ghost var b2 := freeMap.Bits();
      var removed; ghost var k1;
      removed, k1 := directory.Remove(name);
      OnePlace(d0, files, own, name, k, k1);
      StoreMap(freeMap, disk, freeMapFile, b0, files[0]);
      ghost var d1 := disk.View();
      Removed(d0, d1, files, own, b2, sector);
      RemovedHeaders(d1, files, files1, own1);
      HeaderCopy(dirFile.hdr.Slots(), dirFile.hdr.numBytes, d0, b0, d1, b2, 1, files[1]);
      HeaderCopy(freeMapFile.hdr.Slots(), freeMapFile.hdr.numBytes, d0, b0, d1, b2, 0, files[0]);
      var outcome; ghost var f1, taken1;
      outcome, f1, taken1 := directory.WriteBack(disk, dirFile, freeMapFile, files1, own1, files[1]);
      Unchanged(files1, own1, 1);
      RemoveDone(d0, d1, disk.View(), files, own, sector, k, b2, directory.table[..]);
      files, own := files1, own1;
    }

    /** Writes to an open file of the system. A growth that stops the code for lack of data sectors leaves
        everything as it was; one that comes out short leaves the file's header so that no file system in
        order has it. */
    method WriteFile(file: OpenFile, from: array<Byte>, numBytes: int)
      returns (res: int, outcome: Outcome, ghost g: File, ghost taken: seq<int>, ghost tail: seq<Byte>)
      requires Valid() && 0 <= numBytes <= from.Length && (numBytes == 0 || file.seekPosition >= 0)
      requires file.diskSector in files && file.diskSector != FREE_MAP_SECTOR && file.diskSector != DIRECTORY_SECTOR
      requires file.Opens(disk.View(), FreeBits(disk.View(), files), files[file.diskSector])
      requires file.hdr != freeMapFile.hdr && file.hdr.dataSectors != freeMapFile.hdr.dataSectors
      modifies this, file`seekPosition, file.hdr, file.hdr.dataSectors, disk.sectors
      ensures if old(file.seekPosition) + numBytes <= old(files[file.diskSector].length) then
                outcome == Done && g == old(files[file.diskSector]) && taken == []
              else
                Growth(outcome, old(disk.View()), disk.View(), old(files), old(files[file.diskSector]), g, numBytes)
      ensures outcome == Short ==> Broken(disk.View(), file.diskSector)
      ensures outcome == Stopped && old(Free()) < BlocksOf(numBytes) ==>
                disk.View() == old(disk.View()) && files == old(files) && Valid()
      ensures outcome == Done ==>
                && Valid() && files == old(files)[file.diskSector := g]
                && |tail| == (if old(files[file.diskSector].length) < old(file.seekPosition) + numBytes then numBytes
                              else 0)
                && res == Clamp(g.length, numBytes, old(file.seekPosition)) &&
                   file.seekPosition == old(file.seekPosition) + res
                && Longest(res, numBytes, old(file.seekPosition), g.length)
                && Wrote(old(disk.View()), disk.View(), old(files), old(own), file.diskSector, g, taken, tail,
                         old(file.seekPosition), from[..res])
                && file.Opens(disk.View(), FreeBits(disk.View(), files), g)
    {
      hide Sound, FreeBits, FileHeld, DirEntries, FSInv, CountClear, Overwritten, OthersSame, Need, Readable, Content,
           OwnMore, SameBut, Broken, Wrote, Decides;
      ghost var d0, h, files0, own0 := disk.View(), file.diskSector, files, own;
      SoundParts(d0, files, own);
      res, outcome, g, taken, tail := file.Write(disk, freeMapFile, from, numBytes, files, own, files[h]);
      if outcome != Done {
        return;
      }
      WroteParts(d0, disk.View(), files0, own0, h, g, taken, tail, old(file.seekPosition), from[..res]);
      StillSound(d0, disk.View(), files0, own0, h, g, taken);
      files, own := files0[h := g], OwnMore(own0, h, taken);
    }
  }

  lemma WroteParts(d0: seq<Sector>, d1: seq<Sector>, files: map<int, File>, own: map<int, int>, h: int, g: File,
                   taken: seq<int>, tail: seq<Byte>, position: int, part: seq<Byte>)
    requires Wrote(d0, d1, files, own, h, g, taken, tail, position, part)
    ensures FSInv(d1, files[h := g], OwnMore(own, h, taken)) && OthersSame(d0, d1, files, h)
  {
    hide FSInv, OthersSame, Overwritten, OwnMore;
  }

  lemma StillSound(d0: seq<Sector>, d1: seq<Sector>, files: map<int, File>, own: map<int, int>, h: int, g: File,
                   taken: seq<int>)
    requires Sound(d0, files, own) && h in files && h != FREE_MAP_SECTOR && h != DIRECTORY_SECTOR
    requires FSInv(d1, files[h := g], OwnMore(own, h, taken)) && OthersSame(d0, d1, files, h)
    ensures Sound(d1, files[h := g], OwnMore(own, h, taken))
    ensures FreeBits(d1, files[h := g]) == FreeBits(d1, files) && 0 in files && files[h := g][0] == files[0]
  {
    hide FSInv, Content, Readable, DirEntries, OwnMore, Lists, DirReady, FreeBits;
    SoundParts(d0, files, own);
    ListsSame(DirEntries(d0, files), files, h, g);
    SameMapFile(files, files[h := g], d1, d1);
    assert OthersSame(d0, d1, files, h) && 1 in files && 1 != h;
    DirKept(d0, d1, files, files[h := g]);
  }

  /** `d1`, `files'` come from `d0`, `files` by removing the file of entry `k` with header `s`. */
  ghost predicate FileGone(d0: seq<Sector>, d1: seq<Sector>, files: map<int, File>, files': map<int, File>, s: int,
                           k: int) {
    && s in files && files' == files - {s}
    && 0 <= k < |DirEntries(d0, files)| && DirEntries(d0, files)[k].inUse && DirEntries(d0, files)[k].sector == s
    && DirEntries(d1, files') == DirEntries(d0, files)[k := DirEntries(d0, files)[k].(inUse := false)]
    && Freed(FreeBits(d0, files), FreeBits(d1, files'), SectorsOf(files[s]) + [s])
    && OthersSame(d0, d1, files', DIRECTORY_SECTOR)
  }

  lemma HeaderIsHeld(disk: seq<Sector>, bits: seq<bool>, h: int, f: File)
    requires HeaderOnDisk(disk, bits, h, f)
    ensures 0 <= h < |disk| && FileHeld(Words(disk[h])[3..] + [-1], Words(disk[h])[1], disk, bits, f)
  {
  }

  lemma OnePlace(disk: seq<Sector>, files: map<int, File>, own: map<int, int>, name: Name, k: int, k1: int)
    requires Sound(disk, files, own) && IsPlaceOf(DirEntries(disk, files), name, k) &&
             IsPlaceOf(DirEntries(disk, files), name, k1)
    ensures k == k1
  {
    hide FSInv, DirReady, DirEntries;
  }

  lemma RemovedHeaders(d1: seq<Sector>, files: map<int, File>, files1: map<int, File>, own1: map<int, int>)
    requires FSInv(d1, files1, own1) && 0 in files && 1 in files && 1 in files1
    requires forall h :: h in files1 ==> h in files && files1[h] == files[h]
    ensures 0 in files1 && HeaderOnDisk(d1, FreeBits(d1, files1), 0, files[0]) &&
            HeaderOnDisk(d1, FreeBits(d1, files1), 1, files[1])
  {
    hide FSInv, HeaderOnDisk, FreeBits;
    FileOf(d1, files1, own1, 1);
    FileOf(d1, files1, own1, 0);
  }

  /** After the directory is written the file is gone. */
  lemma RemoveDone(d0: seq<Sector>, d1: seq<Sector>, d2: seq<Sector>, files: map<int, File>, own: map<int, int>,
                   s: int, k: int, b2: seq<bool>, table: seq<Byte>)
    requires Sound(d0, files, own) && s in files && s != 0 && s != 1 && 1 in files
    requires 0 <= k < |DirEntries(d0, files)| && DirEntries(d0, files)[k].inUse && DirEntries(d0, files)[k].sector == s
    requires Freed(FreeBits(d0, files), b2, SectorsOf(files[s]) + [s])
    requires FSInv(d1, files - {s}, OwnLess(own, s)) && FreeBits(d1, files - {s}) == b2 && OthersSame(d0, d1, files, s)
    requires FSInv(d2, files - {s}, OwnLess(own, s)) && SameBut(d1, d2, files[1].data)
    requires OthersSame(d1, d2, files - {s}, DIRECTORY_SECTOR)
    requires Readable(d2, files[1]) && StoredDir(Content(d2, files[1]), table) && |table| == DIRECTORY_BYTES
    requires Entries(table) == DirEntries(d0, files)[k := DirEntries(d0, files)[k].(inUse := false)]
    ensures Sound(d2, files - {s}, OwnLess(own, s)) && FileGone(d0, d2, files, files - {s}, s, k)
    ensures FreeBits(d2, files - {s}) == b2
    ensures 0 in files && HeaderOnDisk(d2, b2, 0, files[0])
  {
    hide FSInv, DirReady, SameBut, HeaderOnDisk, SectorsOf, Content, Readable, Entries, StoredDir, DirEntries, Lists,
         Freed, FreeBits;
    var files1, own1 := files - {s}, OwnLess(own, s);
    FSParts(d0, files, own);
    DataWriteKeepsFS(d1, d2, files1, own1, 1);
    SoundParts(d0, files, own);
    EntriesOfStored(d2, files1, table) by { FSParts(d2, files1, own1); }
    ListsFewer(DirEntries(d0, files), files, k);
    FSParts(d2, files1, own1);
    FileOf(d2, files1, own1, 0);
  }

  // ---------------------------------------------------------------- how a creation ends

  lemma NeedsOfNewFile(size: nat)
    ensures NewFileNeeds(size) == 1 + Need(EMPTY_FILE, BlocksOf(size)) && BlocksOf(size) < NewFileNeeds(size)
  {
    NeedOfFile(EMPTY_FILE, BlocksOf(size));
  }

  /** The map cannot hold header and data. */
  lemma NoneCreated(d0: seq<Sector>, files: map<int, File>, own: map<int, int>, name: Name, size: nat, protection: Word,
                    s: int, k: int)
    requires CountClear(FreeBits(d0, files)) <= BlocksOf(size)
    ensures Creation(false, false, d0, d0, files, own, files, name, size, protection, s, k)
  {
    hide CountClear, FreeBits, DirEntries, HasFreeEntry, Created, BlocksOf, GoesOn;
  }

  /** The allocation has stopped the code. */
  lemma CreationStops(d0: seq<Sector>, d1: seq<Sector>, files: map<int, File>, own: map<int, int>, name: Name,
                      size: nat, protection: Word, s: int, k: int)
    requires BlocksOf(size) < CountClear(FreeBits(d0, files)) < NewFileNeeds(size) && Halted(d0, d1, files, own)
    requires !GoesOn(0, CountClear(FreeBits(d0, files)) - 1, BlocksOf(size))
    ensures Creation(false, true, d0, d1, files, own, files, name, size, protection, s, k)
  {
    hide CountClear, FreeBits, DirEntries, HasFreeEntry, Created, BlocksOf, Halted, NewFileNeeds, GoesOn;
  }

  /** All has been written, or the code has stopped when the directory was. */
  lemma CreationEnds(stopped: bool, d0: seq<Sector>, d1: seq<Sector>, files: map<int, File>, own: map<int, int>,
                     files': map<int, File>, name: Name, size: nat, protection: Word, s: int, k: int)
    requires BlocksOf(size) < CountClear(FreeBits(d0, files))
    requires NewFileNeeds(size) <= CountClear(FreeBits(d0, files)) ||
             GoesOn(0, CountClear(FreeBits(d0, files)) - 1, BlocksOf(size))
    requires stopped <==> !HasFreeEntry(DirEntries(d0, files)) && CountClear(FreeBits(d0, files)) < GROWN_BLOCKS
    requires stopped ==> files' == files && Halted(d0, d1, files, own) && !DirReady(d1, files)
    requires !stopped ==>
               if NewFileNeeds(size) <= CountClear(FreeBits(d0, files)) && HasFreeEntry(DirEntries(d0, files)) then
                 Created(d0, d1, files, files', name, size, protection, s, k)
               else files' == files && Ruined(d1, s) && Leads(d1, name, s)
    ensures Creation(!stopped, stopped, d0, d1, files, own, files', name, size, protection, s, k)
  {
    hide CountClear, FreeBits, DirEntries, HasFreeEntry, BlocksOf, Halted, NewFileNeeds, Ruined, Leads, DirReady,
         NewEntry, OthersSame, GoesOn;
    if CountClear(FreeBits(d0, files)) < NewFileNeeds(size) {
      LargeGoesOn(CountClear(FreeBits(d0, files)), BlocksOf(size));
    }
  }

  /** Only an allocation for a large file goes on. */
  lemma LargeGoesOn(clear: int, n: int)
    requires 0 <= n < clear && GoesOn(0, clear - 1, n)
    ensures GROWN_BLOCKS <= clear
  {
  }

  lemma IsEntryMade(es: seq<Entry>, view: seq<Entry>, name: Name, s: int, k: int)
    requires |es| == NUM_DIR_ENTRIES && 0 <= k < |view| && forall i :: 0 <= i < k && i < |es| ==> es[i].inUse
    requires k < |es| ==> !es[k].inUse && view == es[k := Entry(false, true, s, Key(name))]
    requires k >= |es| ==> |view| == 2 * |es| && k == |es| && view[k] == Entry(false, true, s, Key(name))
    ensures EntryMade(es, view, name, s, k)
  {
    hide Key;
  }

  lemma TableSize(es: seq<Entry>, view: seq<Entry>, name: Name, s: int, k: int)
    requires EntryMade(es, view, name, s, k)
    ensures |view| == (if HasFreeEntry(es) then 1 else 2) * NUM_DIR_ENTRIES
  {
    hide HasFreeEntry;
  }

  lemma IsTried(d0: seq<Sector>, d1: seq<Sector>, files: map<int, File>, own: map<int, int>, s: int, b2: seq<bool>)
    requires Sound(d0, files, own) && s !in files && |FreeBits(d0, files)| == NUM_SECTORS
    requires 0 <= s < NUM_SECTORS && !FreeBits(d0, files)[s] && Kept(d0, d1, FreeBits(d0, files)[s := true], b2, [-1])
    ensures Tried(d0, d1, files, own, s, b2)
  {
    hide Sound, Kept;
  }

  lemma IsInHand(d0: seq<Sector>, d1: seq<Sector>, files: map<int, File>, own: map<int, int>, slots: seq<int>,
                 numBytes: int, s: int, g: File, size: nat, taken: seq<int>, b2: seq<bool>, whole: bool)
    requires Tried(d0, d1, files, own, s, b2) && |slots| == NUM_DIRECT
    requires whole ==> Pending(d0, d1, files, own, s, g, size, taken, b2, slots) && numBytes == g.length
    requires !whole ==> slots[1] != -1 && numBytes == size && BlocksOf(size) <= NUM_SECTORS
    ensures InHand(d0, d1, files, own, slots, numBytes, s, g, size, taken, b2, whole)
  {
    hide Tried, Pending;
  }

  lemma TriedSector(d0: seq<Sector>, d1: seq<Sector>, files: map<int, File>, own: map<int, int>, s: int, b2: seq<bool>)
    requires Tried(d0, d1, files, own, s, b2)
    ensures 0 <= s < NUM_SECTORS && s != 0 && s != 1 && 0 in files && 1 in files && |d1| == NUM_SECTORS
    ensures files[0].length == FREE_MAP_FILE_SIZE && files[1].length == 2 * DIRECTORY_BYTES &&
            |files[1].data| == DIRECTORY_BLOCKS
  {
    hide Sound;
    SoundParts(d0, files, own);
  }

  /** Neither the allocation nor the writing of the header has touched a sector in use. */
  lemma StillFS(d0: seq<Sector>, d1: seq<Sector>, d2: seq<Sector>, files: map<int, File>, own: map<int, int>, s: int,
                b2: seq<bool>)
    requires Tried(d0, d1, files, own, s, b2) && |d2| == |d1|
    requires forall x :: 0 <= x < NUM_SECTORS && x != s ==> d2[x] == d1[x]
    ensures FSInv(d2, files, own) && FreeBits(d2, files) == FreeBits(d0, files) && Halted(d0, d2, files, own)
    ensures 0 in files && 1 in files && s !in own
    ensures HeaderOnDisk(d2, FreeBits(d0, files), 0, files[0]) && HeaderOnDisk(d2, FreeBits(d0, files), 1, files[1])
  {
    hide FSInv, Content, HeaderOnDisk, FreeBits, Owns, Readable, DirReady, Lists, DirEntries;
    SoundParts(d0, files, own);
    FSParts(d0, files, own);
    UnownedFrame(d0, d2, files, own);
    FileOf(d2, files, own, 0);
    FileOf(d2, files, own, 1);
  }

  lemma MarksStay(d0: seq<Sector>, d1: seq<Sector>, files: map<int, File>, own: map<int, int>, s: int, b2: seq<bool>)
    requires Tried(d0, d1, files, own, s, b2)
    ensures |b2| == NUM_SECTORS && 0 in files && forall x :: x in SectorsOf(files[0]) && 0 <= x < NUM_SECTORS ==> b2[x]
  {
    hide Sound, SectorsOf, FreeBits;
    SoundParts(d0, files, own);
    MarkedOwn(d0, files, own, 0);
  }

  /** The map file is in order on the new map too. */
  lemma MapHeader(d0: seq<Sector>, d1: seq<Sector>, d2: seq<Sector>, d3: seq<Sector>, files: map<int, File>,
                  own: map<int, int>, s: int, b2: seq<bool>, g1: File, grown: seq<int>, table: seq<Byte>)
    requires Tried(d0, d1, files, own, s, b2) && TableStored(d2, d3, files, own, 1, g1, grown, table)
    ensures 0 in files && HeaderOnDisk(d3, b2, 0, files[0])
  {
    hide FSInv, HeaderOnDisk, SectorsOf, OwnMore, FreeBits, Tried, Readable, Content, StoredDir, OthersSame;
    var files1, own1 := files[1 := g1], OwnMore(own, 1, grown);
    MarksStay(d0, d1, files, own, s, b2);
    FileOf(d3, files1, own1, 0);
    FileFrame(d3, d3, FreeBits(d3, files1), b2, 0, files[0]);
  }

  /** What a full directory does: its file needs 4 more data sectors and nothing else. */
  lemma FullGrowth(outcome: Outcome, d0: seq<Sector>, d1: seq<Sector>, d2: seq<Sector>, d3: seq<Sector>,
                   files: map<int, File>, own: map<int, int>, s: int, b2: seq<bool>, g1: File)
    requires Tried(d0, d1, files, own, s, b2) && Halted(d0, d2, files, own)
    requires Outgrown(outcome, d2, d3, files, own, 1, g1, 2 * NUM_DIR_ENTRIES)
    ensures outcome != Short && (outcome == Stopped <==> CountClear(FreeBits(d0, files)) < GROWN_BLOCKS)
    ensures outcome == Stopped ==> Halted(d0, d3, files, own) && !DirReady(d3, files)
    ensures outcome == Done ==> CountClear(FreeBits(d3, files)) < CountClear(FreeBits(d0, files))
  {
    hide FSInv, CountClear, FreeBits, Content, Readable, SameBut, OthersSame, Tried, WordOf;
    TriedSector(d0, d1, files, own, s, b2);
    assert Need(files[1], GROWN_BLOCKS) == GROWN_BLOCKS;
    if outcome == Stopped {
      DataWriteKeepsFS(d2, d3, files, own, 1);
      OthersSameTwice(d0, d2, d3, files, files, 1);
    }
  }

  /** The header has been written (`d2`), and the directory (`d3`): in its free entry, or with 4 more data
      sectors that are clear in the map as it was. */
  ghost predicate DirWritten(d0: seq<Sector>, d1: seq<Sector>, d2: seq<Sector>, d3: seq<Sector>, files: map<int, File>,
                             own: map<int, int>, name: Name, s: int, k: int, g: File, size: nat, taken: seq<int>,
                             b2: seq<bool>, protection: int, g1: File, grown: seq<int>, table: seq<Byte>, whole: bool,
                             slots: seq<int>) {
    && Tried(d0, d1, files, own, s, b2) && Halted(d0, d2, files, own)
    && (whole ==> Entered(d0, d2, files, own, s, g, size, taken, b2, protection))
    && 0 <= s < |d2| && (!whole ==> Words(d2[s])[4] != -1)
    && TableStored(d2, d3, files, own, 1, g1, grown, table) &&
       EntryMade(DirEntries(d0, files), Entries(table), name, s, k)
    && if HasFreeEntry(DirEntries(d0, files)) then
         1 in files && g1 == files[1] && grown == [] && SameBut(d2, d3, files[1].data)
       else CountClear(FreeBits(d3, files)) < CountClear(FreeBits(d0, files))
  }

  lemma IsDirWritten(d0: seq<Sector>, d1: seq<Sector>, d2: seq<Sector>, d3: seq<Sector>, files: map<int, File>,
                     own: map<int, int>, name: Name, s: int, k: int, g: File, size: nat, taken: seq<int>, b2: seq<bool>,
                     protection: int, g1: File, grown: seq<int>, table: seq<Byte>, whole: bool, slots: seq<int>)
    requires Tried(d0, d1, files, own, s, b2) && Halted(d0, d2, files, own)
    requires whole ==> Entered(d0, d2, files, own, s, g, size, taken, b2, protection)
    requires 0 <= s < |d2| && |slots| == NUM_DIRECT && Words(d2[s])[3..] == slots[..NUM_DIRECT - 1]
    requires !whole ==> slots[1] != -1
    requires TableStored(d2, d3, files, own, 1, g1, grown, table) &&
             EntryMade(DirEntries(d0, files), Entries(table), name, s, k)
    requires if HasFreeEntry(DirEntries(d0, files)) then
               1 in files && g1 == files[1] && grown == [] && SameBut(d2, d3, files[1].data)
             else CountClear(FreeBits(d3, files)) < CountClear(FreeBits(d0, files))
    ensures DirWritten(d0, d1, d2, d3, files, own, name, s, k, g, size, taken, b2, protection, g1, grown, table, whole,
                       slots)
  {
    hide Tried, Halted, Entered, TableStored, EntryMade, HasFreeEntry, DirEntries, Entries, SameBut, CountClear,
         FreeBits;
    SecondWord(d2[s], slots);
  }

  lemma HandSector(d0: seq<Sector>, d1: seq<Sector>, files: map<int, File>, own: map<int, int>, slots: seq<int>,
                   numBytes: int, s: int, g: File, size: nat, taken: seq<int>, b2: seq<bool>, whole: bool)
    requires InHand(d0, d1, files, own, slots, numBytes, s, g, size, taken, b2, whole)
    ensures Tried(d0, d1, files, own, s, b2) && 0 <= s < NUM_SECTORS && 0 <= numBytes < 0x8000_0000
    ensures 0 in files && files[0].length == FREE_MAP_FILE_SIZE && 1 in files && files[1].length == 2 * DIRECTORY_BYTES
    ensures |files[1].data| == DIRECTORY_BLOCKS && |d1| == NUM_SECTORS && |slots| == NUM_DIRECT
    ensures !whole ==> slots[1] != -1
  {
    hide Tried, Pending;
    TriedSector(d0, d1, files, own, s, b2);
    if whole {
      PendingLength(d0, d1, files, own, s, g, size, taken, b2, slots);
    }
  }

  lemma HandWritten(d0: seq<Sector>, d1: seq<Sector>, d2: seq<Sector>, files: map<int, File>, own: map<int, int>,
                    slots: seq<int>, numBytes: int, s: int, g: File, size: nat, taken: seq<int>, b2: seq<bool>,
                    whole: bool, protection: int)
    requires InHand(d0, d1, files, own, slots, numBytes, s, g, size, taken, b2, whole) && |d2| == |d1|
    requires forall x :: 0 <= x < NUM_SECTORS && x != s ==> d2[x] == d1[x]
    requires 0 <= s < |d2| && Words(d2[s])[3..] == slots[..NUM_DIRECT - 1]
    requires Words(d2[s])[1] == numBytes && Words(d2[s])[0] == protection
    ensures FSInv(d2, files, own) && FreeBits(d2, files) == FreeBits(d0, files) && Halted(d0, d2, files, own)
    ensures 0 in files && 1 in files && |d2| == NUM_SECTORS
    ensures HeaderOnDisk(d2, FreeBits(d0, files), 0, files[0]) && HeaderOnDisk(d2, FreeBits(d0, files), 1, files[1])
    ensures whole ==> Entered(d0, d2, files, own, s, g, size, taken, b2, protection)
  {
    hide Tried, Pending, FSInv, FreeBits, Halted, HeaderOnDisk, Entered, Words;
    TriedSector(d0, d1, files, own, s, b2);
    StillFS(d0, d1, d2, files, own, s, b2);
    if whole {
      HeaderEntered(d0, d1, d2, files, own, s, g, size, taken, b2, slots, protection);
    }
  }

  /** With room for all the file needs, and a free entry, it has been created. */
  lemma EnteredWell(d0: seq<Sector>, d1: seq<Sector>, d2: seq<Sector>, d3: seq<Sector>, d4: seq<Sector>,
                    files: map<int, File>, own: map<int, int>, name: Name, s: int, k: int, g: File, size: nat,
                    taken: seq<int>, b2: seq<bool>, protection: Word, g1: File, grown: seq<int>, table: seq<Byte>,
                    slots: seq<int>)
    requires DirWritten(d0, d1, d2, d3, files, own, name, s, k, g, size, taken, b2, protection, g1, grown, table, true,
                        slots)
    requires HasFreeEntry(DirEntries(d0, files)) && IsPlaceOf(DirEntries(d0, files), name, -1)
    requires 0 in files && SameBut(d3, d4, files[0].data) && IsMapFile(d4, files[0]) && StoredBits(d4, files[0]) == b2
    ensures Sound(d4, files[s := g], OwnMore(own, s, [s] + taken))
    ensures Created(d0, d4, files, files[s := g], name, size, protection, s, k) && s !in files && s != 0
    ensures FreeBits(d4, files[s := g]) == b2 && HeaderOnDisk(d4, b2, 0, files[0])
  {
    hide Tried, Halted, Entered, TableStored, EntryMade, HasFreeEntry, DirEntries, Entries, SameBut, CountClear,
         FreeBits, Sound, Created, HeaderOnDisk, IsMapFile, StoredBits, IsPlaceOf, Key, Readable, Content, StoredDir,
         Words;
    TriedSector(d0, d1, files, own, s, b2);
    NewHeader(d0, d1, files, own, s, b2);
    TableSize(DirEntries(d0, files), Entries(table), name, s, k);
    DirectoryEntered(d0, d2, d3, files, own, s, g, size, taken, b2, protection, table);
    TableBytes(Content(d3, files[1]), table);
    MapEntered(d0, d3, d4, files, own, name, s, k, g, size, taken, b2, protection, table);
  }

  lemma TableBytes(content: seq<Byte>, table: seq<Byte>)
    requires StoredDir(content, table) && |Entries(table)| == NUM_DIR_ENTRIES
    ensures |table| == DIRECTORY_BYTES
  {
  }

  lemma NewHeader(d0: seq<Sector>, d1: seq<Sector>, files: map<int, File>, own: map<int, int>, s: int, b2: seq<bool>)
    requires Tried(d0, d1, files, own, s, b2)
    ensures s !in files
  {
    hide Sound, Kept;
  }

  /** Without the one or the other the disk is ruined. */
  lemma EnteredRuins(d0: seq<Sector>, d1: seq<Sector>, d2: seq<Sector>, d3: seq<Sector>, d4: seq<Sector>,
                     files: map<int, File>, own: map<int, int>, name: Name, s: int, k: int, g: File, size: nat,
                     taken: seq<int>, b2: seq<bool>, protection: int, g1: File, grown: seq<int>, table: seq<Byte>,
                     whole: bool, slots: seq<int>)
    requires DirWritten(d0, d1, d2, d3, files, own, name, s, k, g, size, taken, b2, protection, g1, grown, table, whole,
                        slots)
    requires !(whole && HasFreeEntry(DirEntries(d0, files)))
    requires 0 in files && SameBut(d3, d4, files[0].data) && IsMapFile(d4, files[0]) && StoredBits(d4, files[0]) == b2
    ensures Ruined(d4, s) && Leads(d4, name, s)
  {
    hide FSInv, HeaderOnDisk, SectorsOf, OwnMore, FreeBits, Tried, Readable, Content, StoredDir, OthersSame, SameBut,
         Words, Entered, OnlyIn, IsMapFile, StoredBits, CountClear, Took, HasFreeEntry, DirEntries, Entries, Key,
         Ruined, Leads;
    TriedSector(d0, d1, files, own, s, b2);
    EntryStored(d3, d4, files[1 := g1], OwnMore(own, 1, grown), table, name, s, k);
    StillClear(d0, d1, d2, files, own, s, b2);
    if HasFreeEntry(DirEntries(d0, files)) {
      ShortRuins(d2, d3, d4, files, own, s);
    } else {
      IsOverlaid(d0, d1, d2, d3, d4, files, own, s, g, size, taken, b2, protection, g1, grown, table, whole);
      FullRuins(d2, d3, d4, files, own, g1, grown, s, FreeBits(d0, files), b2, whole, g, taken);
    }
  }

  lemma SecondWord(sector: Sector, slots: seq<int>)
    requires |slots| == NUM_DIRECT && Words(sector)[3..] == slots[..NUM_DIRECT - 1]
    ensures Words(sector)[4] == slots[1]
  {
    assert Words(sector)[3..][1] == Words(sector)[4];
  }

  lemma StillClear(d0: seq<Sector>, d1: seq<Sector>, d2: seq<Sector>, files: map<int, File>, own: map<int, int>, s: int,
                   b2: seq<bool>)
    requires Tried(d0, d1, files, own, s, b2) && Halted(d0, d2, files, own)
    ensures FSInv(d2, files, own) && s !in own && 0 <= s < NUM_SECTORS && FreeBits(d2, files) == FreeBits(d0, files)
  {
    hide FSInv, OthersSame, Sound, Kept, FreeBits, Owns;
    FSParts(d2, files, own);
  }

  lemma IsOverlaid(d0: seq<Sector>, d1: seq<Sector>, d2: seq<Sector>, d3: seq<Sector>, d4: seq<Sector>,
                   files: map<int, File>, own: map<int, int>, s: int, g: File, size: nat, taken: seq<int>,
                   b2: seq<bool>, protection: int, g1: File, grown: seq<int>, table: seq<Byte>, whole: bool)
    requires Tried(d0, d1, files, own, s, b2) && Halted(d0, d2, files, own)
    requires whole ==> Entered(d0, d2, files, own, s, g, size, taken, b2, protection)
    requires 0 <= s < |d2| && (!whole ==> Words(d2[s])[4] != -1)
    requires TableStored(d2, d3, files, own, 1, g1, grown, table)
    requires CountClear(FreeBits(d3, files)) < CountClear(FreeBits(d0, files))
    requires 0 in files && SameBut(d3, d4, files[0].data) && IsMapFile(d4, files[0]) && StoredBits(d4, files[0]) == b2
    ensures Overlaid(d2, d3, d4, files, own, g1, grown, s, FreeBits(d0, files), b2, whole, g, taken)
  {
    hide FSInv, HeaderOnDisk, OwnMore, FreeBits, Readable, Content, StoredDir, OthersSame, SameBut, Words,
         OnlyIn, IsMapFile, StoredBits, CountClear, Tried;
    TriedSector(d0, d1, files, own, s, b2);
    StillClear(d0, d1, d2, files, own, s, b2);
    TookCount(FreeBits(d0, files), FreeBits(d3, files), grown);
    FSParts(d2, files, own);
    if whole {
      EnteredParts(d0, d2, files, own, s, g, size, taken, b2, protection);
      TakenInFile(files, own, FreeBits(d0, files), b2, s, g, taken, d2);
    }
  }

  lemma EnteredParts(d0: seq<Sector>, d: seq<Sector>, files: map<int, File>, own: map<int, int>, s: int, g: File,
                     size: nat, taken: seq<int>, b2: seq<bool>, protection: int)
    requires Entered(d0, d, files, own, s, g, size, taken, b2, protection)
    ensures s !in files && Extended(files, own, FreeBits(d0, files), b2, s, g, [s] + taken, d, d)
  {
    hide Extended, Sound, FSInv, FreeBits;
  }

  lemma TakenInFile(files: map<int, File>, own: map<int, int>, b0: seq<bool>, b2: seq<bool>, s: int, g: File,
                    taken: seq<int>, d: seq<Sector>)
    requires s !in files && Extended(files, own, b0, b2, s, g, [s] + taken, d, d)
    ensures Took(b0, b2, [s] + taken) && HeaderOnDisk(d, b2, s, g) && forall x :: x in taken ==> x in SectorsOf(g)
  {
    hide SectorsOf, HeaderOnDisk, MarksAre;
    var all := [s] + taken;
    forall x | x in taken
      ensures x in SectorsOf(g)
    {
      var i :| 0 <= i < |taken| && taken[i] == x;
      assert all[0] == s && all[i + 1] == x && x in all;
      assert Uses(s, g, x);
    }
  }

  lemma NotAFile(disk: seq<Sector>, files: map<int, File>, own: map<int, int>, s: int)
    requires Sound(disk, files, own) && 0 <= s < |FreeBits(disk, files)| && !FreeBits(disk, files)[s]
    ensures s !in files
  {
    hide FSInv, DirReady, Lists, DirEntries;
    if s in files {
      FileOf(disk, files, own, s);
    }
  }

  lemma IsPending(d0: seq<Sector>, d1: seq<Sector>, files: map<int, File>, own: map<int, int>, s: int, g: File,
                  size: nat, taken: seq<int>, b2: seq<bool>, slots: seq<int>, b1: seq<bool>)
    requires Sound(d0, files, own) && s !in files
    requires |FreeBits(d0, files)| == NUM_SECTORS && 0 <= s < NUM_SECTORS && !FreeBits(d0, files)[s]
    requires b1 == FreeBits(d0, files)[s := true] && Took(b1, b2, taken)
    requires CountClear(b2) == CountClear(FreeBits(d0, files)) - NewFileNeeds(size)
    requires FileGrown(EMPTY_FILE, g, size, BlocksOf(size), taken)
    requires FileHeld(slots, g.length, d1, b2, g) && SameBut(d0, d1, g.index + [g.root])
    ensures Pending(d0, d1, files, own, s, g, size, taken, b2, slots)
  {
    hide Sound, Took, FileGrown, FileHeld, SameBut, CountClear, NewFileNeeds;
  }

  /** The new file `g` is on the disk `d` with its header, which holds `protection`; the map and,
      for all other files, everything on the disk is as it was on `d0`. */
  ghost predicate Entered(d0: seq<Sector>, d: seq<Sector>, files: map<int, File>, own: map<int, int>, s: int, g: File,
                          size: nat, taken: seq<int>, b2: seq<bool>, protection: int) {
    && CountClear(b2) == CountClear(FreeBits(d0, files)) - NewFileNeeds(size)
    && g.length == size && |d| == NUM_SECTORS && 0 <= s < NUM_SECTORS
    && Sound(d0, files, own) && s !in files && FSInv(d, files, own) && FreeBits(d, files) == FreeBits(d0, files)
    && Extended(files, own, FreeBits(d0, files), b2, s, g, [s] + taken, d, d)
    && Words(d[s])[0] == protection
    && OthersSame(d0, d, files, DIRECTORY_SECTOR)
  }

  lemma PendingLength(d0: seq<Sector>, d1: seq<Sector>, files: map<int, File>, own: map<int, int>, s: int, g: File,
                      size: nat, taken: seq<int>, b2: seq<bool>, slots: seq<int>)
    requires Pending(d0, d1, files, own, s, g, size, taken, b2, slots)
    ensures 0 <= s < NUM_SECTORS && s !in files && 0 <= g.length <= SECTOR_SIZE * MAX_TREE
  {
    hide Sound, FileHeld, Took, SameBut, FileGrown;
    HeldIsReadable(slots, g.length, d1, b2, g);
  }

  lemma HeaderEntered(d0: seq<Sector>, d1: seq<Sector>, d2: seq<Sector>, files: map<int, File>, own: map<int, int>,
                      s: int, g: File, size: nat, taken: seq<int>, b2: seq<bool>, slots: seq<int>, protection: int)
    requires Pending(d0, d1, files, own, s, g, size, taken, b2, slots) && |d2| == |d1|
    requires forall x :: 0 <= x < NUM_SECTORS && x != s ==> d2[x] == d1[x]
    requires 0 <= s < |d2| && Words(d2[s])[3..] == slots[..NUM_DIRECT - 1]
    requires Words(d2[s])[1] == g.length && Words(d2[s])[0] == protection
    ensures Extended(files, own, FreeBits(d0, files), b2, s, g, [s] + taken, d0, d2)
    ensures Entered(d0, d2, files, own, s, g, size, taken, b2, protection)
  {
    hide FSInv, DirReady, Lists, FileHeld, FileGrown, Took, SameBut, Extended, HeaderOnDisk, FreeBits, SectorsOf,
         Content, Readable, CountClear, Need;
    var b0 := FreeBits(d0, files);
    SoundParts(d0, files, own);
    HeldIsReadable(slots, g.length, d1, b2, g);
    FSParts(d0, files, own);
    TookOne(b0, s);
    SizeGrown(EMPTY_FILE, g, size, taken);
    AllocatedExtends(files, own, b0, b0[s := true], b2, s, EMPTY_FILE, g, size, DivRoundUp(size, SECTOR_SIZE), [s],
                     taken, slots, d0, d1, d2) by { assert s !in SectorsOf(EMPTY_FILE) by { NoSectors(); } }
    ExtendedUnowned(files, own, b0, b2, s, g, [s] + taken, d0, d2);
    ExtendedHere(files, own, b0, b2, s, g, [s] + taken, d0, d2);
    UnownedFrame(d0, d2, files, own);
  }

  lemma NoSectors()
    ensures SectorsOf(EMPTY_FILE) == []
  {
  }

  lemma SizeGrown(f: File, g: File, size: int, taken: seq<int>)
    requires size >= 0 && FileGrown(f, g, size, DivRoundUp(size, SECTOR_SIZE), taken)
    ensures g.length == f.length + size
  {
  }

  lemma FSParts(disk: seq<Sector>, files: map<int, File>, own: map<int, int>)
    requires FSInv(disk, files, own)
    ensures Owns(files, own) && MarksAre(FreeBits(disk, files), own) && 0 in files && |disk| == NUM_SECTORS
  {
    hide Owns, StoredBits, HeaderOnDisk, Readable;
  }

  lemma ExtendedHere(files: map<int, File>, own: map<int, int>, b0: seq<bool>, b1: seq<bool>,
                     h: int, g: File, taken: seq<int>, d0: seq<Sector>, d1: seq<Sector>)
    requires Extended(files, own, b0, b1, h, g, taken, d0, d1)
    ensures Extended(files, own, b0, b1, h, g, taken, d1, d1)
  {
    hide HeaderOnDisk, SectorsOf, MarksAre, Took;
  }

  /** The directory has been written back too, with the entry of the new file. */
  lemma DirectoryEntered(d0: seq<Sector>, d2: seq<Sector>, d3: seq<Sector>, files: map<int, File>, own: map<int, int>,
                         s: int, g: File, size: nat, taken: seq<int>, b2: seq<bool>, protection: int, table: seq<Byte>)
    requires Entered(d0, d2, files, own, s, g, size, taken, b2, protection)
    requires 1 in files && SameBut(d2, d3, files[1].data) && TableStored(d2, d3, files, own, 1, files[1], [], table)
    ensures Entered(d0, d3, files, own, s, g, size, taken, b2, protection)
    ensures Readable(d3, files[1]) && StoredDir(Content(d3, files[1]), table)
  {
    hide FSInv, DirReady, Lists, FileHeld, SameBut, Extended, HeaderOnDisk, SectorsOf, Content, Readable, CountClear,
         Need, Sound, FreeBits;
    var b0 := FreeBits(d0, files);
    FSParts(d2, files, own);
    Unchanged(files, own, 1);
    ExtendedAfterWrite(files, own, b0, b2, s, g, [s] + taken, d2, d2, d3, 1);
    DataWriteKeepsFS(d2, d3, files, own, 1);
    OthersSameTwice(d0, d2, d3, files, files, 1);
  }

  /** With the map stored the file has been created. */
  lemma MapEntered(d0: seq<Sector>, d3: seq<Sector>, d4: seq<Sector>, files: map<int, File>, own: map<int, int>,
                   name: Name, s: int, k: int, g: File, size: nat, taken: seq<int>, b2: seq<bool>, protection: Word,
                   table: seq<Byte>)
    requires Entered(d0, d3, files, own, s, g, size, taken, b2, protection)
    requires 0 in files && 1 in files && Readable(d3, files[1]) && StoredDir(Content(d3, files[1]), table) &&
             |table| == DIRECTORY_BYTES
    requires IsPlaceOf(DirEntries(d0, files), name, -1) && HasFreeEntry(DirEntries(d0, files))
    requires EntryMade(DirEntries(d0, files), Entries(table), name, s, k)
    requires SameBut(d3, d4, files[0].data) && IsMapFile(d4, files[0]) && StoredBits(d4, files[0]) == b2
    ensures Sound(d4, files[s := g], OwnMore(own, s, [s] + taken))
    ensures Created(d0, d4, files, files[s := g], name, size, protection, s, k)
    ensures FreeBits(d4, files[s := g]) == b2 && HeaderOnDisk(d4, b2, 0, files[0])
  {
    hide FSInv, DirReady, FileHeld, SameBut, Extended, HeaderOnDisk, SectorsOf, Content, Readable, CountClear, Need,
         IsPlaceOf, Key, Entries, StoredDir, StoredBits, IsMapFile, DirEntries, Words, Lists;
    var files' := files[s := g];
    SoundParts(d0, files, own);
    FSParts(d3, files, own);
    IsFreeBits(d3, files) by { FileOf(d3, files, own, 0); }
    ExtendedThenStored(files, own, b2, s, g, [s] + taken, d3, d3, d4);
    FileOf(d4, files', OwnMore(own, s, [s] + taken), 0);
    HeaderKept(files, own, FreeBits(d0, files), b2, s, g, [s] + taken, d3, d4);
    EntriesOfStored(d4, files', table);
    ListsMore(DirEntries(d0, files), files, k, name, s, g);
    OthersSameAll(d0, d3, d4, files, s);
  }

  lemma HeaderKept(files: map<int, File>, own: map<int, int>, b0: seq<bool>, b1: seq<bool>,
                   h: int, g: File, taken: seq<int>, d: seq<Sector>, d': seq<Sector>)
    requires Owns(files, own) && Extended(files, own, b0, b1, h, g, taken, d, d) && h !in files
    requires 0 in files && SameBut(d, d', files[0].data)
    ensures 0 <= h < |d| == |d'| && d'[h] == d[h]
  {
    hide SectorsOf, FileHeld, Took, MarksAre, Owns;
    if h in files[0].data {
      DataInFile(files[0]);
      assert Uses(0, files[0], h);
      NotTouched(files, own, b0, b1, h, g, taken, d, d, 0, h);
    }
  }

  lemma OthersSameAll(d0: seq<Sector>, d3: seq<Sector>, d4: seq<Sector>, files: map<int, File>, s: int)
    requires OthersSame(d0, d3, files, DIRECTORY_SECTOR) && s !in files
    requires forall k :: k in files && k != s && k != FREE_MAP_SECTOR ==>
               Readable(d3, files[k]) && Readable(d4, files[k]) && Content(d4, files[k]) == Content(d3, files[k])
    ensures OthersSame(d0, d4, files, DIRECTORY_SECTOR)
  {
    hide Content, Readable;
  }

  /** After that nothing on the disk is a sound file system, with whatever files: its directory would list
      the new one. */
  lemma NeverSound(disk: seq<Sector>, name: Name, s: int, files: map<int, File>, own: map<int, int>)
    requires Ruined(disk, s) && Leads(disk, name, s)
    ensures !Sound(disk, files, own)
  {
    hide FSInv, HeaderOnDisk, Content, Readable, Key, Lists, StoredDir, DirEntries, Entries;
    if Sound(disk, files, own) {
      SoundParts(disk, files, own);
      var f, bits, table, k :| LeadsBy(disk, name, s, f, bits, table, k);
      HeaderDetermines(disk, bits, FreeBits(disk, files), 1, f, files[1]);
      SameTable(disk, files, table);
      Listed(DirEntries(disk, files), files, k);
    }
  }

  lemma SameTable(disk: seq<Sector>, files: map<int, File>, table: seq<Byte>)
    requires DirReady(disk, files) && StoredDir(Content(disk, files[1]), table)
    ensures DirEntries(disk, files) == Entries(table)
  {
    hide Content, Readable, WordOf;
  }

  lemma Listed(es: seq<Entry>, files: map<int, File>, k: int)
    requires Lists(es, files) && 0 <= k < |es| && es[k].inUse
    ensures es[k].sector in files
  {
  }

  // ---------------------------------------------------------------- both do happen

  /** `i` entries are in use, for names that begin with 1, ..., `i`. */
  ghost predicate Used(es: seq<Entry>, i: nat) {
    && |es| == NUM_DIR_ENTRIES && CountClear(InUse(es)) == NUM_DIR_ENTRIES - i
    && forall j :: 0 <= j < |es| && es[j].inUse ==> |es[j].name| == FILE_NAME_MAX_LEN && 1 <= es[j].name[0] <= i
  }

  ghost function InUse(es: seq<Entry>): (u: seq<bool>)
    ensures |u| == |es|
  {
    seq(|es|, j requires 0 <= j < |es| => es[j].inUse)
  }

  lemma NoneUsed(es: seq<Entry>)
    requires |es| == NUM_DIR_ENTRIES && NoneInUse(es)
    ensures Used(es, 0)
  {
    assert InUse(es) == seq(NUM_DIR_ENTRIES, _ => false);
    AllClear(NUM_DIR_ENTRIES);
  }

  lemma OneMoreUsed(es: seq<Entry>, es': seq<Entry>, i: nat, name: Name, s: int, k: int)
    requires Used(es, i) && i < NUM_DIR_ENTRIES && |name| == 1 && name[0] == i + 1 && NewEntry(es, es', name, s, k)
    ensures Used(es', i + 1)
  {
    hide CountClear;
    CountSet(InUse(es), k);
    assert InUse(es') == InUse(es)[k := true];
  }

  lemma RoomWhileUsed(es: seq<Entry>, i: nat, name: Name)
    requires Used(es, i) && i <= NUM_DIR_ENTRIES && |name| == 1 && name[0] == i + 1
    ensures IsPlaceOf(es, name, -1) && (HasFreeEntry(es) <==> i < NUM_DIR_ENTRIES)
  {
    hide CountClear;
    if i < NUM_DIR_ENTRIES {
      SomeClear(InUse(es));
    } else if HasFreeEntry(es) {
      var k :| 0 <= k < |es| && !es[k].inUse;
      CountSet(InUse(es), k);
    }
    forall j | 0 <= j < |es| && es[j].inUse
      ensures !HoldsName(es[j].name, name)
    {
      assert Key(name)[0] == i + 1;
      HeldIsKey(es[j].name, name);
    }
  }

  /** Ten empty files are created on a new file system, and then the eleventh: the answer is yes every
      time, and the disk is ruined. */
  method EleventhFileRuins(disk: SynchDisk) returns (ghost s: int)
    requires disk.Valid()
    modifies disk.sectors
    ensures Ruined(disk.View(), s) && Leads(disk.View(), [11], s)
  {
    hide Sound, FreeBits, FileHeld, CountClear, DirEntries, Creation, IsPlaceOf, HasFreeEntry, Used, NoneInUse, Ruined,
         Leads, FileSystem.Valid, FileSystem.Dir, FileSystem.Free, NewFileNeeds;
    var fs := new FileSystem(disk);
    StartsUnused(fs);
    for i := 0 to NUM_DIR_ENTRIES
      invariant fs.Valid() && fs.disk == disk && Used(fs.Dir(), i) && fs.Free() == NUM_SECTORS - 11 - i
    {
      CreateEmpty(fs, i);
    }
    var name: Name := [11];
    s := CreateOneMore(fs, name);
  }

  lemma StartsUnused(fs: FileSystem)
    requires fs.Valid() && NoneInUse(fs.Dir())
    ensures Used(fs.Dir(), 0)
  {
    hide Sound, FreeBits, DirEntries, Used, NoneInUse;
    SoundParts(fs.disk.View(), fs.files, fs.own);
    NoneUsed(fs.Dir());
  }

  method CreateEmpty(fs: FileSystem, i: nat)
    requires fs.Valid() && i < NUM_DIR_ENTRIES && Used(fs.Dir(), i) && fs.Free() > 0
    modifies fs, fs.disk.sectors
    ensures fs.Valid() && Used(fs.Dir(), i + 1) && fs.Free() == old(fs.Free()) - 1
  {
    hide Sound, FreeBits, FileHeld, CountClear, DirEntries, Creation, IsPlaceOf, Key, HasFreeEntry, Used, Created,
         NewEntry, NewFileNeeds, FileSystem.Valid, GoesOn;
    var name: Name := [i + 1];
    ghost var d0, files, own, es := fs.disk.View(), fs.files, fs.own, fs.Dir();
    RoomWhileUsed(es, i, name);
    EmptyFileNeeds();
    var success, stopped; ghost var s, k;
    success, stopped, s, k := fs.Create(name, 0, 0);
    WellCreated(success, stopped, d0, fs.disk.View(), files, own, fs.files, name, 0, 0, s, k);
    IsCreated(d0, fs.disk.View(), files, fs.files, name, 0, 0, s, k);
    OneMoreUsed(es, fs.Dir(), i, name, s, k);
  }

  method CreateOneMore(fs: FileSystem, name: Name) returns (ghost s: int)
    requires fs.Valid() && Used(fs.Dir(), NUM_DIR_ENTRIES) && fs.Free() >= GROWN_BLOCKS && |name| == 1 && name[0] == 11
    modifies fs, fs.disk.sectors
    ensures Ruined(fs.disk.View(), s) && Leads(fs.disk.View(), name, s)
  {
    hide Sound, FreeBits, FileHeld, CountClear, DirEntries, Creation, IsPlaceOf, Key, HasFreeEntry, Used, NewFileNeeds,
         Ruined, Leads, FileSystem.Valid, GoesOn;
    ghost var d0, files, own := fs.disk.View(), fs.files, fs.own;
    RoomWhileUsed(fs.Dir(), NUM_DIR_ENTRIES, name);
    EmptyFileNeeds();
    var success, stopped; ghost var k;
    success, stopped, s, k := fs.Create(name, 0, 0);
    IllCreated(success, stopped, d0, fs.disk.View(), files, own, fs.files, name, 0, 0, s, k);
  }

  lemma EmptyFileNeeds()
    ensures NewFileNeeds(0) == 1
  {
    hide NewIndex, BlocksOf;
    NoBlocks();
    IndexMonotone(0, 0);
  }

  lemma NoBlocks()
    ensures BlocksOf(0) == 0
  {
  }

  lemma WellCreated(success: bool, stopped: bool, d0: seq<Sector>, d1: seq<Sector>, files: map<int, File>,
                    own: map<int, int>, files': map<int, File>, name: Name, size: nat, protection: Word, s: int, k: int)
    requires Creation(success, stopped, d0, d1, files, own, files', name, size, protection, s, k)
    requires HasFreeEntry(DirEntries(d0, files)) && NewFileNeeds(size) <= CountClear(FreeBits(d0, files))
    ensures success && !stopped && Created(d0, d1, files, files', name, size, protection, s, k)
  {
    hide FreeBits, CountClear, DirEntries, HasFreeEntry, Halted, Ruined, Leads, DirReady, Created, NewFileNeeds, GoesOn;
    NeedsOfNewFile(size);
  }

  lemma IllCreated(success: bool, stopped: bool, d0: seq<Sector>, d1: seq<Sector>, files: map<int, File>,
                   own: map<int, int>, files': map<int, File>, name: Name, size: nat, protection: Word, s: int, k: int)
    requires Creation(success, stopped, d0, d1, files, own, files', name, size, protection, s, k)
    requires !HasFreeEntry(DirEntries(d0, files)) && NewFileNeeds(size) <= CountClear(FreeBits(d0, files))
    requires GROWN_BLOCKS <= CountClear(FreeBits(d0, files))
    ensures success && !stopped && Ruined(d1, s) && Leads(d1, name, s)
  {
    hide FreeBits, CountClear, DirEntries, HasFreeEntry, Halted, Ruined, Leads, DirReady, Created, NewFileNeeds, GoesOn;
    NeedsOfNewFile(size);
  }

  lemma IsCreated(d0: seq<Sector>, d1: seq<Sector>, files: map<int, File>, files': map<int, File>,
                  name: Name, size: nat, protection: Word, s: int, k: int)
    requires Created(d0, d1, files, files', name, size, protection, s, k)
    ensures NewEntry(DirEntries(d0, files), DirEntries(d1, files'), name, s, k)
    ensures CountClear(FreeBits(d1, files')) == CountClear(FreeBits(d0, files)) - NewFileNeeds(size)
  {
    hide DirEntries, FreeBits, CountClear, NewEntry, NewFileNeeds, OthersSame;
  }

  /** The first file created on a new file system has 1012 data sectors, for which the map has room but for
      their index sectors: the answer is yes, and the disk is ruined. */
  method LargeFileRuins(disk: SynchDisk) returns (ghost s: int)
    requires disk.Valid()
    modifies disk.sectors
    ensures Ruined(disk.View(), s) && Leads(disk.View(), [1], s)
  {
    hide Sound, FreeBits, FileHeld, CountClear, DirEntries, Created, IsPlaceOf, Key, HasFreeEntry, Used, NoneInUse,
         Ruined, Leads, Halted, DirReady;
    var fs := new FileSystem(disk);
    SoundParts(disk.View(), fs.files, fs.own);
    NoneUsed(fs.Dir());
    var name: Name := [1];
    RoomWhileUsed(fs.Dir(), 0, name);
    var size := 1012 * SECTOR_SIZE;
    assert BlocksOf(size) == 1012 && NewFileNeeds(size) > NUM_SECTORS - 11 && GoesOn(0, 1012, 1012);
    var success, stopped; ghost var k;
    success, stopped, s, k := fs.Create(name, size, 0);
  }
}
