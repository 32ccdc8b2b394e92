/** What the file system keeps over every run (filesys/filesys.cc): the marks of the free map that
    is stored on the disk are exactly the sectors in use, and every such sector has one owner.

    `files` maps the sector of each header to the file it heads, and `own` maps each sector in
    use to the header of the file it belongs to. */
module Ownership {
  import opened Sectors
  import opened Bitmaps
  import opened Blocks
  import opened FileHeaders
  import opened FileContents

  const FREE_MAP_SECTOR := 0
  const DIRECTORY_SECTOR := 1
  const FREE_MAP_FILE_SIZE := 128  // NumSectors / BitsInByte

  ghost predicate IsMapFile(disk: seq<Sector>, f: File) {
    Readable(disk, f) && f.length == FREE_MAP_FILE_SIZE
  }

  /** The map of sectors that the file `f` of the disk stores. */
  ghost function StoredBits(disk: seq<Sector>, f: File): (bits: seq<bool>)
    requires IsMapFile(disk, f)
    ensures |bits| == NUM_SECTORS
  {
    BitsOfFile(Content(disk, f))
  }

  /** Sector `s` holds the header `h` or belongs to its file `f`. */
  ghost predicate Uses(h: int, f: File, s: int) {
    s == h || s in SectorsOf(f)
  }

  ghost predicate Owns(files: map<int, File>, own: map<int, int>) {
    && (forall h, s :: h in files && Uses(h, files[h], s) ==> s in own && own[s] == h)
    && (forall s :: s in own ==> own[s] in files && Uses(own[s], files[own[s]], s))
  }

  ghost predicate MarksAre(bits: seq<bool>, own: map<int, int>) {
    && |bits| == NUM_SECTORS
    && forall s :: 0 <= s < NUM_SECTORS ==> (bits[s] <==> s in own)
  }

  ghost predicate FilesOnDisk(disk: seq<Sector>, bits: seq<bool>, files: map<int, File>) {
    forall h :: h in files ==> HeaderOnDisk(disk, bits, h, files[h]) && h !in SectorsOf(files[h])
  }

  ghost predicate FSInv(disk: seq<Sector>, files: map<int, File>, own: map<int, int>) {
    && |disk| == NUM_SECTORS
    && FREE_MAP_SECTOR in files && IsMapFile(disk, files[FREE_MAP_SECTOR])
    && FilesOnDisk(disk, StoredBits(disk, files[FREE_MAP_SECTOR]), files)
    && Owns(files, own)
    && MarksAre(StoredBits(disk, files[FREE_MAP_SECTOR]), own)
  }

  // ---------------------------------------------------------------- what the invariant says

  /** No sector has two uses: files have disjoint sectors, and within a file the header, the index
      sectors and the data sectors are all different. */
  lemma NoSharedSector(disk: seq<Sector>, files: map<int, File>, own: map<int, int>, h1: int, h2: int, s: int)
    requires FSInv(disk, files, own)
    requires h1 in files && h2 in files && Uses(h1, files[h1], s) && Uses(h2, files[h2], s)
    ensures h1 == h2
    ensures Distinct([h1] + SectorsOf(files[h1]))
  {
    hide StoredBits, FileHeld, SectorsOf, MarksAre, Content;
    assert Owns(files, own);
    assert Uses(h1, files[h1], s) && Uses(h2, files[h2], s);
    assert own[s] == h1;
    assert own[s] == h2;
    var f := files[h1];
    SectorsDistinct(Words(disk[h1])[3..] + [-1], Words(disk[h1])[1], disk, StoredBits(disk, files[0]), f);
    forall i, j | 0 <= i < j < 1 + |SectorsOf(f)|
      ensures ([h1] + SectorsOf(f))[i] != ([h1] + SectorsOf(f))[j]
    {
      assert ([h1] + SectorsOf(f))[j] == SectorsOf(f)[j - 1];
      assert SectorsOf(f)[j - 1] in SectorsOf(f);
      assert i > 0 ==> ([h1] + SectorsOf(f))[i] == SectorsOf(f)[i - 1];
    }
  }

  /** The stored map marks exactly the sectors that some file uses. */
  lemma MarkedIffUsed(disk: seq<Sector>, files: map<int, File>, own: map<int, int>, s: int)
    requires FSInv(disk, files, own) && 0 <= s < NUM_SECTORS
    ensures StoredBits(disk, files[0])[s] <==> exists h :: h in files && Uses(h, files[h], s)
  {
    hide StoredBits, FilesOnDisk, IsMapFile, Uses;
    if s in own {
      assert own[s] in files && Uses(own[s], files[own[s]], s);
    }
  }

  // ---------------------------------------------------------------- frames

  /** A file stays in order while its header and index sectors keep their contents and its sectors
      their marks. */
  lemma FileFrame(d0: seq<Sector>, d1: seq<Sector>, b0: seq<bool>, b1: seq<bool>, h: int, f: File)
    requires HeaderOnDisk(d0, b0, h, f) && |d1| == |d0| && |b1| == NUM_SECTORS
    requires d1[h] == d0[h]
    requires forall s :: s in SectorsOf(f) && s !in f.data && 0 <= s < |d0| ==> d1[s] == d0[s]
    requires forall s :: s in SectorsOf(f) && 0 <= s < NUM_SECTORS ==> b1[s]
    ensures HeaderOnDisk(d1, b1, h, f)
  {
    if f.data != [] {
      assert f.root in SectorsOf(f);
      forall j | 0 <= j < |f.index|
        ensures Words(d1[f.index[j]]) == Pad(Chunk(f.data, j))
      {
        assert f.index[j] in f.index && f.index[j] in SectorsOf(f);
      }
    }
  }

  /** The content of a file depends on its data sectors only. */
  lemma ContentFrame(d0: seq<Sector>, d1: seq<Sector>, f: File)
    requires Readable(d0, f) && |d1| == |d0|
    requires forall s :: s in f.data && 0 <= s < |d0| ==> d1[s] == d0[s]
    ensures Readable(d1, f) && Content(d1, f) == Content(d0, f)
  {
    forall i | 0 <= i < f.length
      ensures ByteIn(d1, f.data, i) == ByteIn(d0, f.data, i)
    {
      assert f.data[i / SECTOR_SIZE] in f.data;
    }
  }

  /** A file that grows keeps its bytes and has `fileSize` unspecified ones behind them. */
  lemma ContentGrown(d0: seq<Sector>, d1: seq<Sector>, f: File, g: File, fileSize: int)
    requires Readable(d0, f) && Readable(d1, g) && |d1| == |d0| && fileSize >= 0
    requires f.data <= g.data && g.length == f.length + fileSize
    requires forall s :: s in f.data && 0 <= s < |d0| ==> d1[s] == d0[s]
    ensures Content(d1, g) == Content(d0, f) + Content(d1, g)[f.length..]
  {
    forall i | 0 <= i < f.length
      ensures Content(d1, g)[i] == Content(d0, f)[i]
    {
      assert f.data[i / SECTOR_SIZE] in f.data && g.data[i / SECTOR_SIZE] == f.data[i / SECTOR_SIZE];
    }
  }

  ghost function OwnMore(own: map<int, int>, h: int, taken: seq<int>): map<int, int> {
    map s | s in own.Keys + (set x | x in taken) :: if s in taken then h else own[s]
  }

  ghost function OwnLess(own: map<int, int>, h: int): map<int, int> {
    map s | s in own && own[s] != h :: own[s]
  }

  /** The sectors that file `h` takes become its own. */
  lemma OwnsMore(files: map<int, File>, own: map<int, int>, h: int, g: File, taken: seq<int>)
    requires Owns(files, own)
    requires forall s :: s in taken ==> s !in own
    requires forall s :: Uses(h, g, s) <==> s in taken || (h in files && Uses(h, files[h], s))
    ensures Owns(files[h := g], OwnMore(own, h, taken))
  {
    hide SectorsOf, Uses;
    var files', own' := files[h := g], OwnMore(own, h, taken);
    forall k, s | k in files' && Uses(k, files'[k], s)
      ensures s in own' && own'[s] == k
    {
      if k != h {
        assert Uses(k, files[k], s);
      }
    }
    forall s | s in own'
      ensures own'[s] in files' && Uses(own'[s], files'[own'[s]], s)
    {
      if s !in taken {
        assert own[s] in files && Uses(own[s], files[own[s]], s);
      }
    }
  }

  lemma OwnsLess(files: map<int, File>, own: map<int, int>, h: int)
    requires Owns(files, own) && h in files
    ensures Owns(files - {h}, OwnLess(own, h))
    ensures forall s :: s in own && s !in OwnLess(own, h) <==> Uses(h, files[h], s)
  {
    forall s
      ensures s in own && s !in OwnLess(own, h) <==> Uses(h, files[h], s)
    {
      if s in own {
        assert Uses(own[s], files[own[s]], s);
      }
    }
  }

  // ---------------------------------------------------------------- a file takes sectors

  /** File `h`, new or already there, is now `g`, with the sectors `taken` from the map `b0`; the
      disk has changed inside `g` and at `h` only. */
  ghost predicate Extended(files: map<int, File>, own: map<int, int>, b0: seq<bool>, b1: seq<bool>,
                           h: int, g: File, taken: seq<int>, d0: seq<Sector>, d1: seq<Sector>) {
    && Took(b0, b1, taken) && MarksAre(b0, own)
    && (forall s :: Uses(h, g, s) <==> s in taken || (h in files && Uses(h, files[h], s)))
    && |d0| == |d1| == NUM_SECTORS
    && (forall s :: 0 <= s < NUM_SECTORS && !Uses(h, g, s) ==> d1[s] == d0[s])
    && (h in files ==> forall s :: s in files[h].data && 0 <= s < NUM_SECTORS ==> d1[s] == d0[s])
    && HeaderOnDisk(d1, b1, h, g) && h !in SectorsOf(g)
  }

  lemma NotTouched(files: map<int, File>, own: map<int, int>, b0: seq<bool>, b1: seq<bool>,
                   h: int, g: File, taken: seq<int>, d0: seq<Sector>, d1: seq<Sector>, k: int, s: int)
    requires Owns(files, own) && Extended(files, own, b0, b1, h, g, taken, d0, d1)
    requires k in files && k != h && Uses(k, files[k], s)
    ensures !Uses(h, g, s)
    ensures 0 <= s < NUM_SECTORS ==> b1[s] && d1[s] == d0[s]
  {
    hide SectorsOf, FileHeld, HeaderOnDisk, Uses;
    assert s in own && own[s] == k;
    assert !(h in files && Uses(h, files[h], s));
  }

  /** Every other file is still in order, with the same content. */
  lemma OthersKept(files: map<int, File>, own: map<int, int>, b0: seq<bool>, b1: seq<bool>,
                   h: int, g: File, taken: seq<int>, d0: seq<Sector>, d1: seq<Sector>, k: int)
    requires Owns(files, own) && Extended(files, own, b0, b1, h, g, taken, d0, d1)
    requires k in files && k != h && HeaderOnDisk(d0, b0, k, files[k]) && k !in SectorsOf(files[k])
    ensures HeaderOnDisk(d1, b1, k, files[k])
    ensures Readable(d0, files[k]) && Readable(d1, files[k]) && Content(d1, files[k]) == Content(d0, files[k])
  {
    hide Content, Owns, FileHeld, Extended;
    var f := files[k];
    assert |d1| == |d0| == |b1| == NUM_SECTORS by { ExtendedSizes(files, own, b0, b1, h, g, taken, d0, d1); }
    forall s | Uses(k, f, s)
      ensures 0 <= s < NUM_SECTORS ==> b1[s] && d1[s] == d0[s]
    {
      NotTouched(files, own, b0, b1, h, g, taken, d0, d1, k, s);
    }
    assert Uses(k, f, k);
    assert forall s :: s in SectorsOf(f) ==> Uses(k, f, s);
    assert forall s :: s in f.data ==> s in SectorsOf(f);
    HeldIsReadable(Words(d0[k])[3..] + [-1], Words(d0[k])[1], d0, b0, f);
    FileFrame(d0, d1, b0, b1, k, f);
    ContentFrame(d0, d1, f);
  }

  lemma ExtendedSizes(files: map<int, File>, own: map<int, int>, b0: seq<bool>, b1: seq<bool>,
                      h: int, g: File, taken: seq<int>, d0: seq<Sector>, d1: seq<Sector>)
    requires Extended(files, own, b0, b1, h, g, taken, d0, d1)
    ensures |d1| == |d0| == |b1| == |b0| == NUM_SECTORS
  {
  }

  /** Once the map file holds the new map the invariant holds again. */
  lemma ExtendedThenStored(files: map<int, File>, own: map<int, int>, b1: seq<bool>,
                           h: int, g: File, taken: seq<int>, d0: seq<Sector>, d1: seq<Sector>, d2: seq<Sector>)
    requires FSInv(d0, files, own) && h != FREE_MAP_SECTOR
    requires Extended(files, own, StoredBits(d0, files[0]), b1, h, g, taken, d0, d1)
    requires SameBut(d1, d2, files[0].data) && IsMapFile(d2, files[0]) && StoredBits(d2, files[0]) == b1
    ensures FSInv(d2, files[h := g], OwnMore(own, h, taken))
    ensures Readable(d1, g) && Readable(d2, g) && Content(d2, g) == Content(d1, g)
    ensures forall k :: k in files && k != h && k != FREE_MAP_SECTOR ==>
              Readable(d0, files[k]) && Readable(d2, files[k]) && Content(d2, files[k]) == Content(d0, files[k])
  {
    hide Content, FileHeld, HeaderOnDisk, StoredBits, Owns, Extended, SectorsOf, IsMapFile, MarksAre;
    var b0, files', own' := StoredBits(d0, files[0]), files[h := g], OwnMore(own, h, taken);
    TakenOwned(files, own, b0, b1, h, g, taken, d0, d1);
    DataWriteFrame(files', own', b1, d1, d2, 0, h) by {
      OthersKept(files, own, b0, b1, h, g, taken, d0, d1, 0);
    }
    forall k | k in files && k != h
      ensures HeaderOnDisk(d2, b1, k, files[k])
      ensures Readable(d0, files[k]) && Readable(d2, files[k])
      ensures k != 0 ==> Content(d2, files[k]) == Content(d0, files[k])
    {
      OthersKept(files, own, b0, b1, h, g, taken, d0, d1, 0);
      OthersKept(files, own, b0, b1, h, g, taken, d0, d1, k);
      DataWriteFrame(files', own', b1, d1, d2, 0, k);
    }
  }

  lemma TakenOwned(files: map<int, File>, own: map<int, int>, b0: seq<bool>, b1: seq<bool>,
                   h: int, g: File, taken: seq<int>, d0: seq<Sector>, d1: seq<Sector>)
    requires Owns(files, own) && Extended(files, own, b0, b1, h, g, taken, d0, d1)
    ensures Owns(files[h := g], OwnMore(own, h, taken)) && MarksAre(b1, OwnMore(own, h, taken))
    ensures HeaderOnDisk(d1, b1, h, g) && h !in SectorsOf(g) && |d1| == |b1| == NUM_SECTORS
  {
    hide HeaderOnDisk, Owns, Uses;
    assert forall s :: s in taken ==> s !in own;
    OwnsMore(files, own, h, g, taken);
  }

  /** Writing the data sectors of file `h` leaves every file in order and every other file's
      content alone. */
  lemma DataWriteFrame(files: map<int, File>, own: map<int, int>, bits: seq<bool>, d1: seq<Sector>, d2: seq<Sector>,
                       h: int, k: int)
    requires Owns(files, own) && h in files && k in files
    requires HeaderOnDisk(d1, bits, k, files[k]) && k !in SectorsOf(files[k])
    requires SameBut(d1, d2, files[h].data)
    ensures HeaderOnDisk(d2, bits, k, files[k])
    ensures Readable(d1, files[k]) && Readable(d2, files[k])
    ensures k != h ==> Content(d2, files[k]) == Content(d1, files[k])
  {
    hide Content, Owns;
    var f, fh := files[k], files[h];
    forall s | Uses(k, f, s) && s in fh.data
      ensures k == h && s in f.data
    {
      assert Uses(h, fh, s);
      OneOwner(files, own, h, k, s);
    }
    assert Uses(k, f, k);
    assert forall s :: s in SectorsOf(f) ==> Uses(k, f, s);
    assert forall s :: s in f.data ==> s in SectorsOf(f);
    HeldIsReadable(Words(d1[k])[3..] + [-1], Words(d1[k])[1], d1, bits, f);
    DataNotHeader(k, f);
    FileFrame(d1, d2, bits, bits, k, f);
    if k != h {
      ContentFrame(d1, d2, f);
    }
  }

  lemma DataNotHeader(k: int, f: File)
    requires k !in SectorsOf(f)
    ensures k !in f.data
  {
  }

  lemma OneOwner(files: map<int, File>, own: map<int, int>, h1: int, h2: int, s: int)
    requires Owns(files, own) && h1 in files && h2 in files
    requires Uses(h1, files[h1], s) && Uses(h2, files[h2], s)
    ensures h1 == h2
  {
    hide SectorsOf, Uses;
    assert own[s] == h1;
    assert own[s] == h2;
  }

  /** A header `h` that has just been allocated more data, or its first data, and written back. */
  lemma AllocatedExtends(files: map<int, File>, own: map<int, int>, b0: seq<bool>, b1: seq<bool>, b2: seq<bool>,
                         h: int, f: File, g: File, fileSize: int, n: int, headers: seq<int>, taken: seq<int>,
                         slots: seq<int>, d0: seq<Sector>, d1: seq<Sector>, d2: seq<Sector>)
    requires MarksAre(b0, own) && Took(b0, b1, headers) && Took(b1, b2, taken)
    requires 0 <= h < NUM_SECTORS && b1[h] && h !in SectorsOf(f)
    requires if h in files then f == files[h] && headers == [] else f == EMPTY_FILE && headers == [h]
    requires n >= 0 && FileGrown(f, g, fileSize, n, taken)
    requires FileHeld(slots, g.length, d1, b2, g) && SameBut(d0, d1, g.index + [g.root]) && |d2| == |d1|
    requires forall s :: 0 <= s < |d1| && s != h ==> d2[s] == d1[s]
    requires Words(d2[h])[3..] == slots[..NUM_DIRECT - 1] && Words(d2[h])[1] == g.length
    ensures Extended(files, own, b0, b2, h, g, headers + taken, d0, d2)
    ensures Readable(d2, g) && f.data <= g.data && g.length == f.length + fileSize
  {
    hide MarksAre, TreeHeld, Content;
    assert h !in SectorsOf(g) by {
      assert h !in taken;
    }
    TookMore(b0, b1, b2, headers, taken);
    assert Words(d2[h])[3..] + [-1] == slots by {
      assert slots[NUM_DIRECT - 1] == -1;
      assert slots == slots[..NUM_DIRECT - 1] + [slots[NUM_DIRECT - 1]];
    }
    HeaderElsewhere(slots, d1, d2, b2, h, g);
    HeldIsReadable(slots, g.length, d2, b2, g);
    forall s | s in f.data && 0 <= s < NUM_SECTORS
      ensures d2[s] == d0[s]
    {
      IndexNotData(slots, d1, b2, g, s);
      DataNotHeader(h, f);
    }
    forall s | 0 <= s < NUM_SECTORS && !Uses(h, g, s)
      ensures d2[s] == d0[s]
    {
      IndexInFile(slots, d1, b2, g, s);
    }
  }

  lemma HeaderElsewhere(slots: seq<int>, d1: seq<Sector>, d2: seq<Sector>, bits: seq<bool>, h: int, g: File)
    requires FileHeld(slots, g.length, d1, bits, g) && h !in SectorsOf(g) && |d2| == |d1|
    requires forall s :: 0 <= s < |d1| && s != h ==> d2[s] == d1[s]
    ensures FileHeld(slots, g.length, d2, bits, g)
  {
    if g.data != [] {
      assert g.root in SectorsOf(g);
      forall j | 0 <= j < |g.index|
        ensures Words(d2[g.index[j]]) == Pad(Chunk(g.data, j))
      {
        assert g.index[j] in g.index && g.index[j] in SectorsOf(g);
      }
    }
  }

  lemma IndexNotData(slots: seq<int>, disk: seq<Sector>, bits: seq<bool>, g: File, s: int)
    requires FileHeld(slots, g.length, disk, bits, g) && s in g.data
    ensures s !in g.index + [g.root]
  {
  }

  lemma IndexInFile(slots: seq<int>, disk: seq<Sector>, bits: seq<bool>, g: File, s: int)
    requires FileHeld(slots, g.length, disk, bits, g) && s !in SectorsOf(g) && 0 <= s
    ensures s !in g.index + [g.root]
  {
  }

  /** The map stored on the disk. */
  ghost function FreeBits(disk: seq<Sector>, files: map<int, File>): seq<bool> {
    if FREE_MAP_SECTOR in files && IsMapFile(disk, files[FREE_MAP_SECTOR]) then StoredBits(disk, files[FREE_MAP_SECTOR])
    else []
  }

  /** Every file but `h` and the free map has the same content on both disks. */
  ghost predicate OthersSame(d0: seq<Sector>, d1: seq<Sector>, files: map<int, File>, h: int) {
    forall k :: k in files && k != h && k != FREE_MAP_SECTOR ==>
      Readable(d0, files[k]) && Readable(d1, files[k]) && Content(d1, files[k]) == Content(d0, files[k])
  }

  /** `g` on `d1` has the bytes of `f` on `d0` and `tail` behind them. */
  ghost predicate Longer(d0: seq<Sector>, d1: seq<Sector>, f: File, g: File, tail: seq<Byte>) {
    && Readable(d0, f) && Readable(d1, g)
    && Content(d1, g) == Content(d0, f) + tail
  }

  /** `g` on `d1` has the bytes of `f` on `d0` and `tail`, with `part` over them at `position`. */
  ghost predicate Overwritten(d0: seq<Sector>, d1: seq<Sector>, f: File, g: File, tail: seq<Byte>, position: int,
                              part: seq<Byte>) {
    && Readable(d0, f) && Readable(d1, g)
    && if part == [] then Content(d1, g) == Content(d0, f) + tail
       else
         && 0 <= position && position + |part| <= f.length + |tail|
         && Content(d1, g) == Splice(Content(d0, f) + tail, position, part)
  }

  /** What the invariant says of one file. */
  lemma FileOf(disk: seq<Sector>, files: map<int, File>, own: map<int, int>, h: int)
    requires FSInv(disk, files, own) && h in files
    ensures |disk| == |FreeBits(disk, files)| == NUM_SECTORS
    ensures FREE_MAP_SECTOR in files && files[FREE_MAP_SECTOR].length == FREE_MAP_FILE_SIZE
    ensures HeaderOnDisk(disk, FreeBits(disk, files), h, files[h]) && h !in SectorsOf(files[h])
    ensures 0 <= h < NUM_SECTORS && FreeBits(disk, files)[h]
    ensures IsMapFile(disk, files[FREE_MAP_SECTOR]) && FreeBits(disk, files) == StoredBits(disk, files[FREE_MAP_SECTOR])
  {
    hide FileHeld, StoredBits, SectorsOf, Readable;
    assert Uses(h, files[h], h);
  }

  /** Copies of the header of a file serve as well as the one on the disk. */
  lemma HeaderCopy(s0: seq<int>, n0: int, d0: seq<Sector>, b0: seq<bool>, d1: seq<Sector>, b1: seq<bool>, h: int,
                   f: File)
    requires FileHeld(s0, n0, d0, b0, f) && HeaderOnDisk(d1, b1, h, f)
    ensures FileHeld(s0, n0, d1, b1, f)
  {
  }

  /** The steps of a growing write: the header's file takes sectors, the header is written back,
      the map is stored. */
  lemma GrowKeepsFS(files: map<int, File>, own: map<int, int>, b1: seq<bool>, h: int, g: File, fileSize: int, n: int,
                    taken: seq<int>, slots: seq<int>, d0: seq<Sector>, d1: seq<Sector>, d2: seq<Sector>)
    requires FSInv(d0, files, own) && h in files && h != FREE_MAP_SECTOR
    requires n >= 0 && FileGrown(files[h], g, fileSize, n, taken) && Took(FreeBits(d0, files), b1, taken)
    requires FileHeld(slots, g.length, d1, b1, g) && SameBut(d0, d1, g.index + [g.root]) && |d2| == |d1|
    requires forall s :: 0 <= s < |d1| && s != h ==> d2[s] == d1[s]
    requires Words(d2[h])[3..] == slots[..NUM_DIRECT - 1] && Words(d2[h])[1] == g.length
    ensures Extended(files, own, StoredBits(d0, files[0]), b1, h, g, taken, d0, d2)
    ensures HeaderOnDisk(d2, b1, 0, files[0]) && HeaderOnDisk(d2, b1, h, g)
    ensures Readable(d2, g) && files[h].data <= g.data && g.length == files[h].length + fileSize
  {
    hide FileHeld, StoredBits, IsMapFile, SectorsOf, FileGrown, Took, SameBut, Extended, Uses, HeaderOnDisk;
    FileOf(d0, files, own, h);
    FileOf(d0, files, own, 0);
    var b0 := FreeBits(d0, files);
    TookNone(b0);
    AllocatedExtends(files, own, b0, b0, b1, h, files[h], g, fileSize, n, [], taken, slots, d0, d1, d2);
    assert [] + taken == taken;
    OthersKept(files, own, b0, b1, h, g, taken, d0, d2, 0);
    ExtendedHeader(files, own, b0, b1, h, g, taken, d0, d2);
  }

  lemma ExtendedHeader(files: map<int, File>, own: map<int, int>, b0: seq<bool>, b1: seq<bool>,
                       h: int, g: File, taken: seq<int>, d0: seq<Sector>, d1: seq<Sector>)
    requires Extended(files, own, b0, b1, h, g, taken, d0, d1)
    ensures HeaderOnDisk(d1, b1, h, g)
    ensures h in files ==> forall s :: s in files[h].data && 0 <= s < NUM_SECTORS ==> d1[s] == d0[s]
  {
  }

  /** After those steps the file is longer and the others are as they were. */
  lemma GrownFS(files: map<int, File>, own: map<int, int>, b1: seq<bool>, h: int, g: File, fileSize: int,
                taken: seq<int>, d0: seq<Sector>, d2: seq<Sector>, d3: seq<Sector>) returns (tail: seq<Byte>)
    requires FSInv(d0, files, own) && h in files && h != FREE_MAP_SECTOR && fileSize >= 0
    requires Extended(files, own, StoredBits(d0, files[0]), b1, h, g, taken, d0, d2)
    requires Readable(d2, g) && files[h].data <= g.data && g.length == files[h].length + fileSize
    requires SameBut(d2, d3, files[0].data) && IsMapFile(d3, files[0]) && StoredBits(d3, files[0]) == b1
    ensures FSInv(d3, files[h := g], OwnMore(own, h, taken)) && FreeBits(d3, files) == b1
    ensures HeaderOnDisk(d3, b1, h, g) && HeaderOnDisk(d3, b1, 0, files[0])
    ensures |tail| == fileSize && Longer(d0, d3, files[h], g, tail) && OthersSame(d0, d3, files, h)
  {
    hide FileHeld, StoredBits, IsMapFile, SectorsOf, SameBut, Extended, HeaderOnDisk, FSInv, Content;
    FileOf(d0, files, own, h);
    ExtendedThenStored(files, own, b1, h, g, taken, d0, d2, d3);
    FileOf(d3, files[h := g], OwnMore(own, h, taken), h);
    FileOf(d3, files[h := g], OwnMore(own, h, taken), 0);
    ExtendedHeader(files, own, StoredBits(d0, files[0]), b1, h, g, taken, d0, d2);
    ExtendedSizes(files, own, StoredBits(d0, files[0]), b1, h, g, taken, d0, d2);
    HeaderReadable(d0, FreeBits(d0, files), h, files[h]);
    ContentGrown(d0, d2, files[h], g, fileSize);
    tail := Content(d2, g)[files[h].length..];
  }

  lemma HeaderReadable(disk: seq<Sector>, bits: seq<bool>, h: int, f: File)
    requires HeaderOnDisk(disk, bits, h, f)
    ensures Readable(disk, f)
  {
  }

  /** Writing the data of file `h` leaves the file system in order and the other files alone. */
  lemma DataWriteKeepsFS(d0: seq<Sector>, d1: seq<Sector>, files: map<int, File>, own: map<int, int>, h: int)
    requires FSInv(d0, files, own) && h in files && h != FREE_MAP_SECTOR
    requires SameBut(d0, d1, files[h].data)
    ensures FSInv(d1, files, own) && FreeBits(d1, files) == FreeBits(d0, files)
    ensures OthersSame(d0, d1, files, h)
  {
    hide Content, FileHeld, HeaderOnDisk, StoredBits, Readable, FreeBits, MarksAre;
    FileOf(d0, files, own, h);
    var bits := FreeBits(d0, files);
    forall k | k in files
      ensures HeaderOnDisk(d1, bits, k, files[k])
      ensures Readable(d0, files[k]) && Readable(d1, files[k])
      ensures k != h ==> Content(d1, files[k]) == Content(d0, files[k])
    {
      FileOf(d0, files, own, k);
      DataWriteFrame(files, own, bits, d0, d1, h, k);
    }
    MapKept(d0, d1, files);
  }

  lemma MapKept(d0: seq<Sector>, d1: seq<Sector>, files: map<int, File>)
    requires 0 in files && Readable(d0, files[0]) && Readable(d1, files[0])
    requires Content(d1, files[0]) == Content(d0, files[0])
    ensures IsMapFile(d0, files[0]) ==> IsMapFile(d1, files[0]) && StoredBits(d1, files[0]) == StoredBits(d0, files[0])
    ensures FreeBits(d1, files) == FreeBits(d0, files)
  {
  }

  lemma NoGrowth(disk: seq<Sector>, files: map<int, File>, own: map<int, int>, h: int)
    requires FSInv(disk, files, own) && h in files
    ensures FSInv(disk, files[h := files[h]], OwnMore(own, h, []))
    ensures Longer(disk, disk, files[h], files[h], []) && OthersSame(disk, disk, files, h)
  {
    hide FileHeld, StoredBits, SectorsOf, Content;
    assert files[h := files[h]] == files && OwnMore(own, h, []) == own;
    forall k | k in files
      ensures Readable(disk, files[k])
    {
      HeaderReadable(disk, StoredBits(disk, files[0]), k, files[k]);
    }
    assert Content(disk, files[h]) + [] == Content(disk, files[h]);
  }

  lemma LongerLength(d0: seq<Sector>, d1: seq<Sector>, f: File, g: File, tail: seq<Byte>)
    requires Longer(d0, d1, f, g, tail)
    ensures g.length == f.length + |tail| && Readable(d0, f) && Readable(d1, g)
  {
  }

  lemma SameMapFile(files: map<int, File>, files1: map<int, File>, d1: seq<Sector>, d2: seq<Sector>)
    requires 0 in files && 0 in files1 && files1[0] == files[0]
    ensures FreeBits(d1, files) == FreeBits(d1, files1) && FreeBits(d2, files) == FreeBits(d2, files1)
  {
  }

  lemma OthersSameTwice(d0: seq<Sector>, d1: seq<Sector>, d2: seq<Sector>, files: map<int, File>,
                        files1: map<int, File>, h: int)
    requires OthersSame(d0, d1, files, h) && OthersSame(d1, d2, files1, h)
    requires h in files && h in files1 && files1 == files[h := files1[h]]
    ensures OthersSame(d0, d2, files, h)
  {
    hide Content, Readable;
    forall k | k in files && k != h && k != FREE_MAP_SECTOR
      ensures Readable(d0, files[k]) && Readable(d2, files[k]) && Content(d2, files[k]) == Content(d0, files[k])
    {
      assert files1[k] == files[k];
    }
  }

  lemma ThenOverwritten(d0: seq<Sector>, d1: seq<Sector>, d2: seq<Sector>, f: File, g: File, tail: seq<Byte>,
                        position: int, part: seq<Byte>)
    requires Longer(d0, d1, f, g, tail) && Readable(d2, g)
    requires if part == [] then Content(d2, g) == Content(d1, g)
             else
               && 0 <= position && position + |part| <= g.length
               && Content(d2, g) == Splice(Content(d1, g), position, part)
    ensures Overwritten(d0, d2, f, g, tail, position, part)
  {
  }

  // ---------------------------------------------------------------- what other sectors hold

  /** The disk has changed in file `h`, which is `g`, and in the data of the map file `f0` only. */
  ghost predicate OnlyIn(d0: seq<Sector>, d1: seq<Sector>, h: int, g: File, f0: File) {
    |d1| == |d0| && forall s :: 0 <= s < |d0| && !Uses(h, g, s) && s !in f0.data ==> d1[s] == d0[s]
  }

  lemma OnlyInNothing(d: seq<Sector>, h: int, g: File, f0: File)
    ensures OnlyIn(d, d, h, g, f0)
  {
  }

  /** Header and index sectors are written, and then the map. */
  lemma GrownOnlyIn(files: map<int, File>, own: map<int, int>, b0: seq<bool>, b1: seq<bool>, h: int, g: File,
                    taken: seq<int>, d0: seq<Sector>, d1: seq<Sector>, d2: seq<Sector>, f0: File)
    requires Extended(files, own, b0, b1, h, g, taken, d0, d1) && SameBut(d1, d2, f0.data)
    ensures OnlyIn(d0, d2, h, g, f0)
  {
    hide HeaderOnDisk, SectorsOf, Took, MarksAre, Uses;
  }

  lemma DataOnlyIn(d0: seq<Sector>, d1: seq<Sector>, d2: seq<Sector>, h: int, g: File, f0: File)
    requires OnlyIn(d0, d1, h, g, f0) && SameBut(d1, d2, g.data)
    ensures OnlyIn(d0, d2, h, g, f0)
  {
    DataUsed(g);
  }

  // ---------------------------------------------------------------- headers on the disk

  /** No file system in order, whichever files it has and whoever owns its sectors, has this disk and a
      file with header `h`. */
  ghost predicate Broken(disk: seq<Sector>, h: int) {
    forall files: map<int, File>, own: map<int, int> :: h in files ==> !FSInv(disk, files, own)
  }

  /** The header of a file in order has nothing in its second slot. */
  lemma SecondSlot(disk: seq<Sector>, bits: seq<bool>, h: int, f: File)
    requires HeaderOnDisk(disk, bits, h, f)
    ensures 0 <= h < |disk| && Words(disk[h])[4] == -1
  {
    assert (Words(disk[h])[3..] + [-1])[1] == Words(disk[h])[4];
  }

  lemma ShortHeaderBreaks(disk: seq<Sector>, h: int)
    requires 0 <= h < |disk| && Words(disk[h])[4] != -1
    ensures Broken(disk, h)
  {
    hide FSInv, HeaderOnDisk;
    forall files: map<int, File>, own: map<int, int> | h in files
      ensures !FSInv(disk, files, own)
    {
      if FSInv(disk, files, own) {
        FileOf(disk, files, own, h);
        SecondSlot(disk, FreeBits(disk, files), h, files[h]);
      }
    }
  }

  /** A sector of the disk that heads a file in order heads no other. */
  lemma HeaderDetermines(disk: seq<Sector>, b0: seq<bool>, b1: seq<bool>, h: int, f: File, g: File)
    requires HeaderOnDisk(disk, b0, h, f) && HeaderOnDisk(disk, b1, h, g)
    ensures f == g
  {
    hide Words;
    assert SlotsOf(f)[0] == SlotsOf(g)[0];
    assert f.length == g.length;
    if f.data != [] && g.data != [] {
      assert f.root == g.root;
      SameView(Words(disk[f.root]), disk, b0, b1, f.index, f.data, g.index, g.data);
    } else {
      EmptyOrRooted(disk, b0, h, f);
      EmptyOrRooted(disk, b1, h, g);
    }
  }

  lemma EmptyOrRooted(disk: seq<Sector>, bits: seq<bool>, h: int, f: File)
    requires HeaderOnDisk(disk, bits, h, f)
    ensures SlotsOf(f)[0] == f.root && (f.data == [] <==> f.root == -1) && (f.data == [] ==> f.index == [])
  {
  }

  lemma SameView(view: seq<int>, disk: seq<Sector>, b0: seq<bool>, b1: seq<bool>,
                 i0: seq<int>, d0: seq<int>, i1: seq<int>, d1: seq<int>)
    requires TreeHeld(view, disk, b0, i0, d0) && TreeHeld(view, disk, b1, i1, d1)
    ensures i0 == i1 && d0 == d1
  {
    PadDetermines(i0, i1);
    if |d0| <= |d1| {
      SameIndexSameData(disk, i0, d0, d1);
    } else {
      SameIndexSameData(disk, i0, d1, d0);
    }
  }

  lemma PadDetermines(a: seq<int>, b: seq<int>)
    requires |a| <= MAX_BLOCKS_NUM && |b| <= MAX_BLOCKS_NUM && Pad(a) == Pad(b) && InDisk(a) && InDisk(b)
    ensures a == b
  {
    PadAt(a, |b|);
    PadAt(b, |a|);
    PadAt(a, |a|);
    PadAt(b, |b|);
    forall i | 0 <= i < |a|
      ensures a[i] == b[i]
    {
      assert Pad(a)[i] == Pad(b)[i];
    }
  }

  lemma PadAt(a: seq<int>, i: nat)
    requires |a| <= MAX_BLOCKS_NUM
    ensures i < MAX_BLOCKS_NUM ==> Pad(a)[i] == if i < |a| then a[i] else -1
  {
  }

  /** Through an allocation for file `h` that came out short, and the writing of its header, the file of
      the map stays in order. */
  lemma MapFileKept(d0: seq<Sector>, d1: seq<Sector>, d2: seq<Sector>, files: map<int, File>, own: map<int, int>,
                    b1: seq<bool>, h: int)
    requires FSInv(d0, files, own) && h in files && h != FREE_MAP_SECTOR
    requires Kept(d0, d1, FreeBits(d0, files), b1, files[h].index + [files[h].root]) && |d2| == |d1|
    requires forall s :: 0 <= s < |d1| && s != h ==> d2[s] == d1[s]
    ensures 0 in files && HeaderOnDisk(d2, b1, 0, files[0]) && h !in files[0].data
  {
    hide FSInv, HeaderOnDisk, SectorsOf, FreeBits;
    FSOwns(d0, files, own);
    var b0, f0, f := FreeBits(d0, files), files[0], files[h];
    FileOf(d0, files, own, 0);
    FileOf(d0, files, own, h);
    FSOwns(d0, files, own);
    IndexIsUsed(d0, b0, h, f);
    forall s | Uses(0, f0, s) && 0 <= s < NUM_SECTORS
      ensures d2[s] == d0[s] && b1[s]
    {
      MarkedIffUsed(d0, files, own, s);
      OtherNotUses(files, own, 0, h, s);
    }
    assert forall s :: s in SectorsOf(f0) ==> Uses(0, f0, s);
    assert Uses(0, f0, 0);
    FileFrame(d0, d2, b0, b1, 0, f0);
    DataUsed(f0);
    assert Uses(h, f, h);
    OtherNotUses(files, own, h, 0, h);
  }

  lemma FileMarked(disk: seq<Sector>, bits: seq<bool>, h: int, f: File)
    requires HeaderOnDisk(disk, bits, h, f)
    ensures Readable(disk, f) && forall s :: s in SectorsOf(f) ==> 0 <= s < NUM_SECTORS && bits[s]
  {
    SectorsDistinct(Words(disk[h])[3..] + [-1], Words(disk[h])[1], disk, bits, f);
  }

  lemma OtherNotUses(files: map<int, File>, own: map<int, int>, h1: int, h2: int, s: int)
    requires Owns(files, own) && h1 in files && h2 in files && h1 != h2 && Uses(h1, files[h1], s)
    ensures !Uses(h2, files[h2], s)
  {
    hide SectorsOf;
    if Uses(h2, files[h2], s) {
      OneOwner(files, own, h1, h2, s);
    }
  }

  lemma FSOwns(disk: seq<Sector>, files: map<int, File>, own: map<int, int>)
    requires FSInv(disk, files, own)
    ensures Owns(files, own) && MarksAre(FreeBits(disk, files), own) && 0 in files && |disk| == NUM_SECTORS
    ensures FreeBits(disk, files) == StoredBits(disk, files[0])
  {
    hide Owns, StoredBits, HeaderOnDisk, Readable;
  }

  lemma IndexIsUsed(disk: seq<Sector>, bits: seq<bool>, h: int, f: File)
    requires HeaderOnDisk(disk, bits, h, f)
    ensures forall s :: 0 <= s && s in f.index + [f.root] ==> s in SectorsOf(f)
  {
  }

  lemma DataUsed(f: File)
    ensures forall s :: s in f.data ==> s in SectorsOf(f)
  {
  }
}
