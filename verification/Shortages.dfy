/** Creating a file when something is short (filesys/filesys.cc, filesys/directory.cc): the code then
    stops on a failed assertion, or goes on to a disk that no file system in order has. */
module Shortages {
  import opened Sectors
  import opened Bitmaps
  import opened Blocks
  import opened FileHeaders
  import opened FileContents
  import opened Ownership
  import opened OpenFiles
  import opened Directories

  /** The code has stopped: the file system on the disk is the one there was, with the same map and, but
      for the directory, the same contents. */
  ghost predicate Halted(d0: seq<Sector>, d1: seq<Sector>, files: map<int, File>, own: map<int, int>) {
    FSInv(d1, files, own) && FreeBits(d1, files) == FreeBits(d0, files) && OthersSame(d0, d1, files, DIRECTORY_SECTOR)
  }

  /** No file system in order, whichever files it has and whoever owns its sectors, has this disk, a
      directory and a file with header `s`. */
  ghost predicate Ruined(disk: seq<Sector>, s: int) {
    forall files: map<int, File>, own: map<int, int> ::
      DIRECTORY_SECTOR in files && s in files ==> !FSInv(disk, files, own)
  }

  /** The directory on the disk leads from `name` to header `s`. */
  ghost predicate Leads(disk: seq<Sector>, name: Name, s: int) {
    exists f: File, bits: seq<bool>, table: seq<Byte>, k: int :: LeadsBy(disk, name, s, f, bits, table, k)
  }

  ghost predicate LeadsBy(disk: seq<Sector>, name: Name, s: int, f: File, bits: seq<bool>, table: seq<Byte>, k: int) {
    && HeaderOnDisk(disk, bits, DIRECTORY_SECTOR, f) && Readable(disk, f) && StoredDir(Content(disk, f), table)
    && 0 <= k < |Entries(table)| && Entries(table)[k] == Entry(false, true, s, Key(name))
    && HoldsName(Key(name), name)
  }

  // ---------------------------------------------------------------- once the map has been stored

  /** Storing the map leaves every file with its header, and all but the map's with its content. */
  lemma StoredFile(d3: seq<Sector>, d4: seq<Sector>, files: map<int, File>, own: map<int, int>, k: int)
    requires FSInv(d3, files, own) && k in files && 0 in files && SameBut(d3, d4, files[0].data)
    ensures HeaderOnDisk(d4, FreeBits(d3, files), k, files[k])
    ensures k != 0 ==>
              Readable(d3, files[k]) && Readable(d4, files[k]) && Content(d4, files[k]) == Content(d3, files[k])
  {
    hide FSInv, HeaderOnDisk, SectorsOf, Content, Readable, SameBut, Owns, MarksAre;
    FileOf(d3, files, own, k);
    FSOwns(d3, files, own);
    DataWriteFrame(files, own, FreeBits(d3, files), d3, d4, 0, k);
  }

  /** The new entry is in the directory that has been written. */
  lemma EntryStored(d3: seq<Sector>, d4: seq<Sector>, files: map<int, File>, own: map<int, int>, table: seq<Byte>,
                    name: Name, s: int, k: int)
    requires FSInv(d3, files, own) && 0 in files && 1 in files && SameBut(d3, d4, files[0].data)
    requires Readable(d3, files[1]) && StoredDir(Content(d3, files[1]), table)
    requires 0 <= k < |Entries(table)| && Entries(table)[k] == Entry(false, true, s, Key(name))
    ensures Leads(d4, name, s)
  {
    hide FSInv, HeaderOnDisk, Content, Readable, SameBut, Entries, StoredDir, Key;
    StoredFile(d3, d4, files, own, 1);
    assert LeadsBy(d4, name, s, files[1], FreeBits(d3, files), table, k);
  }

  /** The files that a file system in order has at the sectors of two headers are those headers' files. */
  lemma SameFile(d3: seq<Sector>, d4: seq<Sector>, files: map<int, File>, own: map<int, int>,
                 files': map<int, File>, own': map<int, int>, k: int)
    requires FSInv(d3, files, own) && 0 in files && SameBut(d3, d4, files[0].data)
    requires FSInv(d4, files', own') && k in files && k in files'
    ensures files'[k] == files[k]
  {
    hide FSInv, HeaderOnDisk, SameBut;
    StoredFile(d3, d4, files, own, k);
    FileOf(d4, files', own', k);
    HeaderDetermines(d4, FreeBits(d3, files), FreeBits(d4, files'), k, files[k], files'[k]);
  }

  // ---------------------------------------------------------------- a header that came out short

  /** A header with its second slot in use has been written where no file was; then the directory and
      the map. */
  lemma ShortRuins(d2: seq<Sector>, d3: seq<Sector>, d4: seq<Sector>, files: map<int, File>, own: map<int, int>, s: int)
    requires FSInv(d2, files, own) && 0 in files && 1 in files && s !in own && 0 <= s < NUM_SECTORS
    requires SameBut(d2, d3, files[1].data) && SameBut(d3, d4, files[0].data)
    requires Words(d2[s])[4] != -1
    ensures Ruined(d4, s)
  {
    hide FSInv, Words, MarksAre, SectorsOf;
    FSOwns(d2, files, own);
    DataUsed(files[0]);
    DataUsed(files[1]);
    assert s in files[0].data ==> Uses(0, files[0], s);
    assert s in files[1].data ==> Uses(1, files[1], s);
    ShortHeaderBreaks(d4, s);
    BrokenIsRuined(d4, s);
  }

  lemma BrokenIsRuined(disk: seq<Sector>, s: int)
    requires Broken(disk, s)
    ensures Ruined(disk, s)
  {
    hide FSInv;
  }

  // ---------------------------------------------------------------- a full directory

  /** What is on the disk when a full directory has grown, by sectors that are clear in the map `b0` as it
      was stored, and the map `b2` of the new file has been stored over its own. The header `s` of the new
      file has been written before; it stands for `g` in order (`whole`), or its second slot is in use. */
  ghost predicate Overlaid(d2: seq<Sector>, d3: seq<Sector>, d4: seq<Sector>, files: map<int, File>, own: map<int, int>,
                           g1: File, grown: seq<int>, s: int, b0: seq<bool>, b2: seq<bool>, whole: bool, g: File,
                           taken: seq<int>) {
    && 0 in files && 1 in files && 0 <= s < NUM_SECTORS && s != 0 && s != 1
    && FSInv(d3, files[1 := g1], OwnMore(own, 1, grown)) && OnlyIn(d2, d3, 1, g1, files[0])
    && grown != [] && |b0| == NUM_SECTORS && (forall x :: x in grown ==> 0 <= x < NUM_SECTORS && !b0[x])
    && SameBut(d3, d4, files[0].data) && IsMapFile(d4, files[0]) && StoredBits(d4, files[0]) == b2
    && |d2| == NUM_SECTORS
    && if whole then Took(b0, b2, [s] + taken) && HeaderOnDisk(d2, b2, s, g) &&
       (forall x :: x in taken ==> x in SectorsOf(g))
       else Words(d2[s])[4] != -1
  }

  /** The sectors of the new file are no others', so nothing has been written there. */
  lemma SectorsKept(d2: seq<Sector>, d3: seq<Sector>, d4: seq<Sector>, files': map<int, File>, own': map<int, int>,
                    g1: File, s: int, f0: File)
    requires FSInv(d4, files', own') && 0 in files' && 1 in files' && s in files' && s != 0 && s != 1
    requires files'[0] == f0 && files'[1] == g1
    requires OnlyIn(d2, d3, 1, g1, f0) && SameBut(d3, d4, f0.data) && |d2| == NUM_SECTORS
    ensures |d4| == |d2| && forall x :: 0 <= x < NUM_SECTORS && Uses(s, files'[s], x) ==> d4[x] == d2[x]
  {
    hide FSInv, SectorsOf, Uses;
    FSOwns(d4, files', own');
    forall x | 0 <= x < NUM_SECTORS && Uses(s, files'[s], x)
      ensures d4[x] == d2[x]
    {
      OtherNotUses(files', own', s, 0, x);
      OtherNotUses(files', own', s, 1, x);
      assert x in f0.data ==> Uses(0, f0, x) by { DataIsUsed(0, f0, x); }
    }
  }

  lemma DataIsUsed(h: int, f: File, x: int)
    ensures x in f.data ==> Uses(h, f, x)
  {
    DataUsed(f);
  }

  lemma HeaderIsUsed(h: int, f: File)
    ensures Uses(h, f, h)
  {
  }

  lemma TakenUses(s: int, g: File, taken: seq<int>, x: int)
    requires x == s || (x in taken && forall y :: y in taken ==> y in SectorsOf(g))
    ensures Uses(s, g, x)
  {
  }

  lemma NewMark(b0: seq<bool>, b2: seq<bool>, s: int, taken: seq<int>, x: int)
    requires Took(b0, b2, [s] + taken) && 0 <= x < |b0| && !b0[x] && b2[x]
    ensures x == s || x in taken
  {
  }

  lemma GrownUses(d3: seq<Sector>, files1: map<int, File>, own1: map<int, int>, own: map<int, int>, grown: seq<int>,
                  x: int)
    requires FSInv(d3, files1, own1) && own1 == OwnMore(own, 1, grown) && x in grown
    ensures 1 in files1 && Uses(1, files1[1], x)
  {
    hide FSInv, Uses, MarksAre;
    FSOwns(d3, files1, own1);
    assert x in own1 && own1[x] == 1;
  }

  /** Where its sectors are as they were the header stands for the same file. */
  lemma HeaderStays(d2: seq<Sector>, d4: seq<Sector>, files': map<int, File>, own': map<int, int>, b2: seq<bool>,
                    s: int, g: File)
    requires FSInv(d4, files', own') && s in files' && HeaderOnDisk(d2, b2, s, g)
    requires |d2| == |d4| == NUM_SECTORS && forall x :: 0 <= x < NUM_SECTORS && Uses(s, files'[s], x) ==> d4[x] == d2[x]
    ensures files'[s] == g
  {
    hide FSInv, SectorsOf, HeaderOnDisk;
    var f, bits := files'[s], FreeBits(d4, files');
    FileOf(d4, files', own', s);
    assert Uses(s, f, s);
    assert forall x :: x in SectorsOf(f) ==> Uses(s, f, x);
    FileMarked(d4, bits, s, f);
    FileFrame(d4, d2, bits, bits, s, f);
    HeaderDetermines(d2, b2, bits, s, g, f);
  }

  /** The directory and the new file would share a sector. */
  lemma WholeShares(d2: seq<Sector>, d3: seq<Sector>, d4: seq<Sector>, files: map<int, File>, own: map<int, int>,
                    g1: File, grown: seq<int>, s: int, b0: seq<bool>, b2: seq<bool>, g: File, taken: seq<int>,
                    files': map<int, File>, own': map<int, int>) returns (x: int)
    requires Overlaid(d2, d3, d4, files, own, g1, grown, s, b0, b2, true, g, taken)
    requires FSInv(d4, files', own') && 1 in files' && s in files'
    ensures Uses(1, files'[1], x) && Uses(s, files'[s], x)
  {
    hide FSInv, HeaderOnDisk, SectorsOf, Words, Took, StoredBits, IsMapFile, OnlyIn, SameBut, Uses, Owns, OwnMore;
    var files1, own1 := files[1 := g1], OwnMore(own, 1, grown);
    FSOwns(d4, files', own');
    SameFile(d3, d4, files1, own1, files', own', 0);
    SameFile(d3, d4, files1, own1, files', own', 1);
    SectorsKept(d2, d3, d4, files', own', g1, s, files[0]);
    HeaderStays(d2, d4, files', own', b2, s, g);
    x := grown[0];
    assert x in grown;
    GrownUses(d3, files1, own1, own, grown, x);
    MarkedIffUsed(d4, files', own', x);
    NewMark(b0, b2, s, taken, x);
    TakenUses(s, g, taken, x);
  }

  /** The second slot of the header is still in use. */
  lemma ShortStays(d2: seq<Sector>, d3: seq<Sector>, d4: seq<Sector>, files: map<int, File>, own: map<int, int>,
                   g1: File, grown: seq<int>, s: int, b0: seq<bool>, b2: seq<bool>, g: File, taken: seq<int>,
                   files': map<int, File>, own': map<int, int>)
    requires Overlaid(d2, d3, d4, files, own, g1, grown, s, b0, b2, false, g, taken)
    requires FSInv(d4, files', own') && 1 in files' && s in files'
    ensures s < |d4| && d4[s] == d2[s]
  {
    hide FSInv, HeaderOnDisk, SectorsOf, Words, Took, StoredBits, IsMapFile, OnlyIn, SameBut, Uses, Owns, OwnMore;
    var files1, own1 := files[1 := g1], OwnMore(own, 1, grown);
    FSOwns(d4, files', own');
    SameFile(d3, d4, files1, own1, files', own', 0);
    SameFile(d3, d4, files1, own1, files', own', 1);
    SectorsKept(d2, d3, d4, files', own', g1, s, files[0]);
    HeaderIsUsed(s, files'[s]);
  }

  /** Whatever the sectors are, no file system in order has both files. */
  lemma FullRuins(d2: seq<Sector>, d3: seq<Sector>, d4: seq<Sector>, files: map<int, File>, own: map<int, int>,
                  g1: File, grown: seq<int>, s: int, b0: seq<bool>, b2: seq<bool>, whole: bool, g: File,
                  taken: seq<int>)
    requires Overlaid(d2, d3, d4, files, own, g1, grown, s, b0, b2, whole, g, taken)
    ensures Ruined(d4, s)
  {
    hide FSInv, HeaderOnDisk, SectorsOf, Took, StoredBits, IsMapFile, OnlyIn, SameBut, Uses, OwnMore;
    forall files': map<int, File>, own': map<int, int> | DIRECTORY_SECTOR in files' && s in files'
      ensures !FSInv(d4, files', own')
    {
      if FSInv(d4, files', own') {
        if whole {
          var x := WholeShares(d2, d3, d4, files, own, g1, grown, s, b0, b2, g, taken, files', own');
          NoSharedSector(d4, files', own', 1, s, x);
        } else {
          ShortStays(d2, d3, d4, files, own, g1, grown, s, b0, b2, g, taken, files', own');
          FileOf(d4, files', own', s);
          SecondSlot(d4, FreeBits(d4, files'), s, files'[s]);
        }
      }
    }
  }
}
