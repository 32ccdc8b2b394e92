/** Open files (filesys/openfile.cc): a file read and written as a flat sequence of bytes, although
    the disk only moves whole sectors. */
module OpenFiles {
  import opened Sectors
  import opened Bitmaps
  import opened Blocks
  import opened FileHeaders
  import opened FileContents
  import opened Ownership

  /** Reads the stored map into `bm`. */
  method FetchMap(bm: Bitmap, disk: SynchDisk, file: OpenFile, ghost bits: seq<bool>, ghost f: File)
    requires bm.Valid() && bm.numBits == NUM_SECTORS && disk.Valid()
    requires file.Opens(disk.View(), bits, f) && f.length == FREE_MAP_FILE_SIZE
    modifies bm.words
    ensures IsMapFile(disk.View(), f) && bm.Bits() == StoredBits(disk.View(), f)
  {
    hide FileHeld, BitOf, ByteIn;
    var buf := new Byte[4 * bm.words.Length];
    var _ := file.ReadAt(disk, buf, 0, 4 * bm.words.Length, 0, bits, f);
    assert buf[..] == Content(disk.View(), f);
    var ws := WordsOfMap(DecodeWords(buf[..]));
    forall i | 0 <= i < bm.words.Length {
      bm.words[i] := ws[i];
    }
    assert bm.words[..] == ws;
  }

  /** Stores the map in its file. */
  method StoreMap(bm: Bitmap, disk: SynchDisk, file: OpenFile, ghost bits: seq<bool>, ghost f: File)
    requires bm.Valid() && bm.numBits == NUM_SECTORS && disk.Valid()
    requires file.Opens(disk.View(), bits, f) && f.length == FREE_MAP_FILE_SIZE
    modifies disk.sectors
    ensures file.Opens(disk.View(), bits, f) && SameBut(old(disk.View()), disk.View(), f.data)
    ensures IsMapFile(disk.View(), f) && StoredBits(disk.View(), f) == bm.Bits()
  {
    hide FileHeld, BitOf, ByteIn, SameBut, BitsOfFile, FileOfWords;
    BitsOfFileOfWords(bm.words[..]);
    var bytes := FileOfWords(bm.words[..]);
    var buf := new Byte[|bytes|](i requires 0 <= i < |bytes| => bytes[i]);
    assert buf[..] == bytes;
    var _ := file.WriteAt(disk, buf, |bytes|, 0, bits, f);
    assert Content(disk.View(), f) == bytes;
  }

  /** How a write that may have to grow its file ends: as it should, in a failed assertion, or with data
      sectors missing. */
  datatype Outcome = Done | Stopped | Short

  /** It depends on the clear sectors, the data sectors to be added, all that they need, and on whether an
      allocation goes on that has room for the former only. */
  ghost predicate Decides(outcome: Outcome, clear: int, n: int, need: int, goesOn: bool) {
    && (clear < n ==> outcome == Stopped)
    && (n <= clear < need ==> outcome == if goesOn then Short else Stopped)
    && (need <= clear ==> outcome == Done)
  }

  /** What becomes of a growth of file `f` by `numBytes` bytes, to `g` if it is done: an allocation that
      the map cannot serve leaves the disk as it was, and one that is done takes just what it needs. */
  ghost predicate Growth(outcome: Outcome, d0: seq<Sector>, d1: seq<Sector>, files: map<int, File>, f: File, g: File,
                         numBytes: nat) {
    var n, clear := DivRoundUp(numBytes, SECTOR_SIZE), CountClear(FreeBits(d0, files));
    && Decides(outcome, clear, n, Need(f, n), GoesOn(|f.data|, clear, n))
    && (clear < n ==> d1 == d0)
    && (outcome == Done ==> |g.data| == |f.data| + n && CountClear(FreeBits(d1, files)) == clear - Need(f, n))
  }

  /** `part` has been written to file `h`, which is `g` now, at `position`: the file system is in order,
      the file has grown by `tail` and by the sectors `taken`, and all other files are the same. */
  ghost predicate Wrote(d0: seq<Sector>, d1: seq<Sector>, files: map<int, File>, own: map<int, int>, h: int, g: File,
                        taken: seq<int>, tail: seq<Byte>, position: int, part: seq<Byte>) {
    && h in files && FREE_MAP_SECTOR in files && g.length == files[h].length + |tail|
    && Overwritten(d0, d1, files[h], g, tail, position, part) && OthersSame(d0, d1, files, h)
    && FSInv(d1, files[h := g], OwnMore(own, h, taken))
    && Took(FreeBits(d0, files), FreeBits(d1, files), taken) && OnlyIn(d0, d1, h, g, files[FREE_MAP_SECTOR])
  }

  lemma NeedIsMore(f: File, n: int)
    requires n >= 0
    ensures n <= Need(f, n)
  {
    IndexMonotone(|f.data|, n);
  }

  class OpenFile {
    const hdr: FileHeader
    var seekPosition: int
    const diskSector: int

    /** This object is an open file on `f`: its copy of the header is up to date. */
    ghost predicate Opens(disk: seq<Sector>, bits: seq<bool>, f: File)
      reads hdr, hdr.dataSectors
    {
      hdr.Valid() && FileHeld(hdr.Slots(), hdr.numBytes, disk, bits, f)
    }

    constructor (disk: SynchDisk, sector: int, ghost bits: seq<bool>, ghost f: File)
      requires disk.Valid() && HeaderOnDisk(disk.View(), bits, sector, f)
      ensures fresh(hdr) && fresh(hdr.dataSectors) && diskSector == sector && seekPosition == 0
      ensures Opens(disk.View(), bits, f)
      ensures hdr.protection == Words(disk.View()[sector])[0]
    {
      hide FileHeld;
      hdr := new FileHeader();
      seekPosition := 0;
      diskSector := sector;
      new;
      hdr.FetchFrom(disk, sector);
    }

    method Seek(position: int)
      modifies this`seekPosition
      ensures seekPosition == position
    {
      seekPosition := position;
    }

    method Length() returns (n: int)
      ensures n == hdr.numBytes
    {
      n := hdr.numBytes;
    }

    /** The reading loop of `ReadAt`: fills the buffer with blocks `first` to `last`. */
    method ReadBlocks(disk: SynchDisk, buf: array<Byte>, first: int, last: int, ghost bits: seq<bool>, ghost f: File)
      requires disk.Valid() && Opens(disk.View(), bits, f)
      requires 0 <= first <= last < |f.data| && buf.Length == (last + 1 - first) * SECTOR_SIZE
      modifies buf
      ensures Readable(disk.View(), f)
      ensures forall k :: 0 <= k < buf.Length ==> buf[k] == ByteIn(disk.View(), f.data, first * SECTOR_SIZE + k)
    {
      hide FileHeld, ByteIn;
      HeldIsReadable(hdr.Slots(), hdr.numBytes, disk.View(), bits, f);
      for i := first to last + 1
        invariant forall k :: 0 <= k < (i - first) * SECTOR_SIZE ==>
                    buf[k] == ByteIn(disk.View(), f.data, first * SECTOR_SIZE + k)
      {
        var sector := hdr.ByteToSector(disk, i * SECTOR_SIZE, bits, f);
        var done := (i - first) * SECTOR_SIZE;
        ghost var before := buf[..done];
        disk.ReadSector(sector, buf, done);
        forall k | 0 <= k < done + SECTOR_SIZE
          ensures buf[k] == ByteIn(disk.View(), f.data, first * SECTOR_SIZE + k)
        {
          if k < done {
            assert buf[k] == before[k];
          } else {
            assert buf[done + (k - done)] == disk.sectors[sector][k - done];
            BlockByte(disk.View(), f.data, i, k - done);
          }
        }
      }
    }

    /** The writing loop of `WriteAt`: writes blocks `first` to `last` from the buffer. */
    method WriteBlocks(disk: SynchDisk, buf: array<Byte>, first: int, last: int, ghost bits: seq<bool>, ghost f: File)
      requires disk.Valid() && Opens(disk.View(), bits, f)
      requires 0 <= first <= last < |f.data| && buf.Length == (last + 1 - first) * SECTOR_SIZE
      modifies disk.sectors
      ensures Opens(disk.View(), bits, f) && Readable(old(disk.View()), f) && Distinct(f.data)
      ensures BlocksWritten(old(disk.View()), disk.View(), f.data, first, last + 1, buf[..])
    {
      hide FileHeld, BlocksWritten, SameBut;
      ghost var d0, b := disk.View(), buf[..];
      HeldIsReadable(hdr.Slots(), hdr.numBytes, d0, bits, f);
      NothingWritten(d0, f.data, first, b);
      for i := first to last + 1
        invariant Opens(disk.View(), bits, f)
        invariant buf[..] == b && BlocksWritten(d0, disk.View(), f.data, first, i, b)
      {
        var sector := hdr.ByteToSector(disk, i * SECTOR_SIZE, bits, f);
        WriteBlock(d0, disk.View(), f.data, first, i, b);
        disk.WriteSector(sector, buf, (i - first) * SECTOR_SIZE);
        WrittenElsewhere(d0, disk.View(), f.data, first, i + 1, b);
        DataWriteKeepsFile(hdr.Slots(), hdr.numBytes, d0, disk.View(), bits, f);
      }
    }

    /** Puts the bytes of the file from `position` on, as many as it has of the `numBytes` asked
        for, at `into[at..]`. */
    method ReadAt(disk: SynchDisk, into: array<Byte>, at: nat, numBytes: int, position: int, ghost bits: seq<bool>,
                  ghost f: File)
      returns (result: int)
      requires disk.Valid() && Opens(disk.View(), bits, f)
      requires numBytes <= 0 || position >= 0
      requires at + Clamp(f.length, numBytes, position) <= into.Length
      modifies into
      ensures Readable(disk.View(), f)
      ensures result == Clamp(f.length, numBytes, position) && Longest(result, numBytes, position, f.length)
      ensures result > 0 ==>
                into[..] == Splice(old(into[..]), at, Content(disk.View(), f)[position..position + result])
      ensures result == 0 ==> into[..] == old(into[..])
    {
      hide FileHeld, ByteIn, Splice;
      HeldIsReadable(hdr.Slots(), hdr.numBytes, disk.View(), bits, f);
      var fileLength := hdr.numBytes;
      if numBytes <= 0 || position >= fileLength {
        return 0;
      }
      var n := numBytes;
      if position + n > fileLength {
        n := fileLength - position;
      }
      var firstSector := position / SECTOR_SIZE;
      var lastSector := (position + n - 1) / SECTOR_SIZE;
      var numSectors := 1 + lastSector - firstSector;
      var buf := new Byte[numSectors * SECTOR_SIZE];
      ReadBlocks(disk, buf, firstSector, lastSector, bits, f);
      var off := position - firstSector * SECTOR_SIZE;
      forall k | 0 <= k < n {
        into[at + k] := buf[off + k];
      }
      result := n;
      ghost var part := Content(disk.View(), f)[position..position + n];
      forall k | 0 <= k < into.Length
        ensures into[..][k] == if at <= k < at + n then part[k - at] else old(into[..])[k]
      {
        if at <= k < at + n {
          assert into[at + (k - at)] == buf[off + (k - at)];
          assert buf[off + (k - at)] == ByteIn(disk.View(), f.data, firstSector * SECTOR_SIZE + (off + (k - at)));
        }
      }
      IsSplice(old(into[..]), into[..], at, part);
    }

    method Read(disk: SynchDisk, into: array<Byte>, numBytes: int, ghost bits: seq<bool>, ghost f: File)
      returns (result: int)
      requires disk.Valid() && Opens(disk.View(), bits, f)
      requires numBytes <= 0 || seekPosition >= 0
      requires Clamp(f.length, numBytes, seekPosition) <= into.Length
      modifies into, this`seekPosition
      ensures Readable(disk.View(), f)
      ensures result == Clamp(f.length, numBytes, old(seekPosition)) && seekPosition == old(seekPosition) + result
      ensures Longest(result, numBytes, old(seekPosition), f.length)
      ensures result > 0 ==>
                into[..] == Splice(old(into[..]), 0, Content(disk.View(), f)[old(seekPosition)..seekPosition])
      ensures result == 0 ==> into[..] == old(into[..])
    {
      hide FileHeld;
      result := ReadAt(disk, into, 0, numBytes, seekPosition, bits, f);
      seekPosition := seekPosition + result;
    }

    /** The middle of `WriteAt`: a new buffer over blocks `first` to `last`, with the blocks that
        will be partly modified read in and the new bytes copied over them. */
    method PrepareBuffer(disk: SynchDisk, from: array<Byte>, n: int, position: int, first: int, last: int,
                         ghost bits: seq<bool>, ghost f: File)
      returns (buf: array<Byte>)
      requires disk.Valid() && Opens(disk.View(), bits, f)
      requires 0 <= position && 0 < n <= from.Length && position + n <= f.length
      requires first == position / SECTOR_SIZE && last == (position + n - 1) / SECTOR_SIZE
      ensures fresh(buf) && buf.Length == (last + 1 - first) * SECTOR_SIZE && Readable(disk.View(), f)
      ensures Prepared(disk.View(), f, first, buf[..], position, from[..n])
    {
      hide FileHeld, ByteIn, Splice, Prepared, Content, Longest;
      HeldIsReadable(hdr.Slots(), hdr.numBytes, disk.View(), bits, f);
      buf := new Byte[(1 + last - first) * SECTOR_SIZE];
      var firstAligned := position == first * SECTOR_SIZE;
      var lastAligned := position + n == (last + 1) * SECTOR_SIZE;
      ghost var b0 := buf[..];
      if !firstAligned {
        var _ := ReadAt(disk, buf, 0, SECTOR_SIZE, first * SECTOR_SIZE, bits, f);
      }
      ghost var b1 := buf[..];
      if !lastAligned && (first != last || firstAligned) {
        var _ := ReadAt(disk, buf, (last - first) * SECTOR_SIZE, SECTOR_SIZE, last * SECTOR_SIZE, bits, f);
      }
      ghost var b2 := buf[..];
      var off := position - first * SECTOR_SIZE;
      forall k | 0 <= k < n {
        buf[off + k] := from[k];
      }
      IsSplice(b2, buf[..], off, from[..n]);
      EdgesSuffice(disk.View(), f, first, last, position, from[..n], b0, b1, b2, buf[..]);
    }

    /** Overwrites the bytes of the file from `position` on with those of `from`, as many as the
        file has of the `numBytes` asked for. */
    method WriteAt(disk: SynchDisk, from: array<Byte>, numBytes: int, position: int, ghost bits: seq<bool>,
                   ghost f: File)
      returns (result: int)
      requires disk.Valid() && Opens(disk.View(), bits, f)
      requires numBytes <= 0 || position >= 0
      requires Clamp(f.length, numBytes, position) <= from.Length
      modifies disk.sectors
      ensures Opens(disk.View(), bits, f) && Readable(disk.View(), f) && Readable(old(disk.View()), f)
      ensures result == Clamp(f.length, numBytes, position) && Longest(result, numBytes, position, f.length)
      ensures result > 0 ==>
                Content(disk.View(), f) == Splice(Content(old(disk.View()), f), position, from[..result])
      ensures result == 0 ==> disk.View() == old(disk.View())
      ensures SameBut(old(disk.View()), disk.View(), f.data)
      ensures forall b | 0 <= b < |f.data| ::
                SECTOR_SIZE * b + SECTOR_SIZE <= position || position + result <= SECTOR_SIZE * b ==>
                  disk.View()[f.data[b]] == old(disk.View())[f.data[b]]
    {
      hide FileHeld, SameBut, BlocksWritten, ByteIn, Splice, Prepared, Content;
      ghost var d0 := disk.View();
      HeldIsReadable(hdr.Slots(), hdr.numBytes, d0, bits, f);
      SameNone(d0, f.data);
      var fileLength := hdr.numBytes;
      if numBytes <= 0 || position >= fileLength {
        return 0;
      }
      var n := numBytes;
      if position + n > fileLength {
        n := fileLength - position;
      }
      var firstSector := position / SECTOR_SIZE;
      var lastSector := (position + n - 1) / SECTOR_SIZE;
      ghost var part := from[..n];
      var buf := PrepareBuffer(disk, from, n, position, firstSector, lastSector, bits, f);
      ghost var b := buf[..];
      WriteBlocks(disk, buf, firstSector, lastSector, bits, f);
      WrittenContent(d0, disk.View(), f, firstSector, lastSector, b, position, part);
      WrittenElsewhere(d0, disk.View(), f.data, firstSector, lastSector + 1, b);
      result := n;
      assert from[..result] == part;
    }

    /** Grows the file by `numBytes` bytes. An allocation that the map cannot serve fails the
        assertion on it, with the disk as it was. One that it can serve but for the index sectors stops
        the code too or leaves a header that no file system in order has. */
    method Grow(disk: SynchDisk, freeMapFile: OpenFile, numBytes: int,
                ghost files: map<int, File>, ghost own: map<int, int>, ghost f: File)
      returns (outcome: Outcome, ghost g: File, ghost taken: seq<int>, ghost tail: seq<Byte>)
      requires disk.Valid() && numBytes >= 0 && FSInv(disk.View(), files, own)
      requires diskSector in files && files[diskSector] == f && diskSector != FREE_MAP_SECTOR
      requires Opens(disk.View(), FreeBits(disk.View(), files), f)
      requires freeMapFile.Opens(disk.View(), FreeBits(disk.View(), files), files[0])
      requires hdr != freeMapFile.hdr && hdr.dataSectors != freeMapFile.hdr.dataSectors
      modifies hdr, hdr.dataSectors, disk.sectors
      ensures Growth(outcome, old(disk.View()), disk.View(), files, f, g, numBytes)
      ensures outcome == Short ==> Broken(disk.View(), diskSector)
      ensures outcome == Done ==>
                && |tail| == numBytes
                && FSInv(disk.View(), files[diskSector := g], OwnMore(own, diskSector, taken))
                && OthersSame(old(disk.View()), disk.View(), files, diskSector)
                && Longer(old(disk.View()), disk.View(), f, g, tail)
                && Took(FreeBits(old(disk.View()), files), FreeBits(disk.View(), files), taken)
                && OnlyIn(old(disk.View()), disk.View(), diskSector, g, files[0])
                && Opens(disk.View(), FreeBits(disk.View(), files), g)
                && freeMapFile.Opens(disk.View(), FreeBits(disk.View(), files), files[0])
    {
      hide FileHeld, FSInv, StoredBits, IsMapFile, OthersSame, Longer, CountClear, SameBut, FileGrown, Took,
           HeaderOnDisk, FreeBits, Readable, SectorsOf, Extended, Need, OwnMore, Kept, OnlyIn, Broken, GoesOn;
      g, taken, tail := f, [], [];
      ghost var d0, b0 := disk.View(), FreeBits(disk.View(), files);
      FileOf(d0, files, own, diskSector);
      NeedIsMore(f, DivRoundUp(numBytes, SECTOR_SIZE));
      var freeMap := new Bitmap(NUM_SECTORS);
      FetchMap(freeMap, disk, freeMapFile, b0, files[0]);
      var ok, trapped, missing;
      ok, trapped, missing, g, taken := hdr.Allocate(disk, freeMap, numBytes, f);
      if !ok || trapped {
        outcome := Stopped;
        return;
      }
      if missing > 0 {
        ShortFits(d0, b0, diskSector, f, numBytes);
      } else {
        GrownLength(f, g, numBytes, DivRoundUp(numBytes, SECTOR_SIZE), taken);
      }
      tail := StoreGrown(disk, freeMapFile, freeMap, missing > 0, numBytes, files, own, f, g, taken, d0);
      outcome := if missing > 0 then Short else Done;
    }

    /** The last steps of a growth: header and map are written back, whether or not the allocation has
        come out `short`. */
    method StoreGrown(disk: SynchDisk, freeMapFile: OpenFile, freeMap: Bitmap, ghost short: bool, ghost numBytes: int,
                      ghost files: map<int, File>, ghost own: map<int, int>, ghost f: File, ghost g: File,
                      ghost taken: seq<int>, ghost d0: seq<Sector>)
      returns (ghost tail: seq<Byte>)
      requires disk.Valid() && numBytes >= 0 && FSInv(d0, files, own)
      requires diskSector in files && files[diskSector] == f && diskSector != FREE_MAP_SECTOR
      requires freeMapFile.Opens(d0, FreeBits(d0, files), files[0])
      requires freeMap.Valid() && freeMap.numBits == NUM_SECTORS && hdr.Valid()
      requires short ==>
                 && -0x8000_0000 <= hdr.numBytes < 0x8000_0000 && hdr.dataSectors[1] != -1
                 && Kept(d0, disk.View(), FreeBits(d0, files), freeMap.Bits(), f.index + [f.root])
      requires !short ==>
                 && FileHeld(hdr.Slots(), hdr.numBytes, disk.View(), freeMap.Bits(), g)
                 && FileGrown(f, g, numBytes, DivRoundUp(numBytes, SECTOR_SIZE), taken)
                 && Took(FreeBits(d0, files), freeMap.Bits(), taken) && SameBut(d0, disk.View(), g.index + [g.root])
      modifies disk.sectors
      ensures short ==> Broken(disk.View(), diskSector)
      ensures !short ==>
                && |tail| == numBytes
                && FSInv(disk.View(), files[diskSector := g], OwnMore(own, diskSector, taken))
                && OthersSame(d0, disk.View(), files, diskSector)
                && Longer(d0, disk.View(), f, g, tail)
                && FreeBits(disk.View(), files) == freeMap.Bits()
                && OnlyIn(d0, disk.View(), diskSector, g, files[0])
                && Opens(disk.View(), FreeBits(disk.View(), files), g)
                && freeMapFile.Opens(disk.View(), FreeBits(disk.View(), files), files[0])
    {
      hide FileHeld, FSInv, StoredBits, IsMapFile, OthersSame, Longer, SameBut, FileGrown, Took, HeaderOnDisk,
           FreeBits, Readable, SectorsOf, Extended, OwnMore, OnlyIn, Kept, Broken;
      tail := [];
      ghost var h, d1, b1, n := diskSector, disk.View(), freeMap.Bits(), DivRoundUp(numBytes, SECTOR_SIZE);
      FileOf(d0, files, own, h);
      if !short {
        HeldIsReadable(hdr.Slots(), hdr.numBytes, d1, b1, g);
      }
      hdr.WriteBack(disk, diskSector);
      ghost var d2 := disk.View();
      if short {
        MapFileKept(d0, d1, d2, files, own, b1, h);
      } else {
        GrowKeepsFS(files, own, b1, h, g, numBytes, n, taken, hdr.Slots(), d0, d1, d2);
      }
      HeaderCopy(freeMapFile.hdr.Slots(), freeMapFile.hdr.numBytes, d0, FreeBits(d0, files), d2, b1, 0, files[0]);
      StoreMap(freeMap, disk, freeMapFile, b1, files[0]);
      ghost var d3 := disk.View();
      if short {
        StoredShort(d2, d3, files[0], h, hdr.Slots());
      } else {
        tail := GrownFS(files, own, b1, h, g, numBytes, taken, d0, d2, d3);
        HeaderCopy(hdr.Slots(), hdr.numBytes, d1, b1, d3, b1, h, g);
        GrownOnlyIn(files, own, FreeBits(d0, files), b1, h, g, taken, d0, d2, d3, files[0]);
      }
    }

    /** Writes at the seek position, growing the file by `numBytes` bytes first when the write would
        pass its end. `tail` is what the new bytes of the file held before the write. When the growth
        stops the code or comes out short, the disk is that after the growth. */
    method Write(disk: SynchDisk, freeMapFile: OpenFile, from: array<Byte>, numBytes: int,
                 ghost files: map<int, File>, ghost own: map<int, int>, ghost f: File)
      returns (res: int, outcome: Outcome, ghost g: File, ghost taken: seq<int>, ghost tail: seq<Byte>)
      requires disk.Valid() && 0 <= numBytes <= from.Length && FSInv(disk.View(), files, own)
      requires numBytes == 0 || seekPosition >= 0
      requires diskSector in files && files[diskSector] == f && diskSector != FREE_MAP_SECTOR
      requires Opens(disk.View(), FreeBits(disk.View(), files), f)
      requires freeMapFile.Opens(disk.View(), FreeBits(disk.View(), files), files[0])
      requires hdr != freeMapFile.hdr && hdr.dataSectors != freeMapFile.hdr.dataSectors
      modifies this`seekPosition, hdr, hdr.dataSectors, disk.sectors
      ensures if old(seekPosition) + numBytes <= f.length then
                && outcome == Done && g == f && taken == [] && SameBut(old(disk.View()), disk.View(), f.data)
                && FreeBits(disk.View(), files) == FreeBits(old(disk.View()), files)
              else
                Growth(outcome, old(disk.View()), disk.View(), files, f, g, numBytes)
      ensures outcome == Short ==> Broken(disk.View(), diskSector)
      ensures outcome == Done ==>
                && |tail| == (if f.length < old(seekPosition) + numBytes then numBytes else 0)
                && res == Clamp(g.length, numBytes, old(seekPosition)) && seekPosition == old(seekPosition) + res
                && Longest(res, numBytes, old(seekPosition), g.length)
                && Wrote(old(disk.View()), disk.View(), files, own, diskSector, g, taken, tail, old(seekPosition),
                         from[..res])
                && Opens(disk.View(), FreeBits(disk.View(), files), g)
                && freeMapFile.Opens(disk.View(), FreeBits(disk.View(), files), files[0])
    {
      hide FileHeld, FSInv, StoredBits, IsMapFile, OthersSame, Longer, CountClear, SameBut, HeaderOnDisk, Broken, Took,
           FreeBits, Readable, SectorsOf, Need, OwnMore, Overwritten, Content, Splice, OnlyIn;
      res, outcome, g, taken, tail := 0, Done, f, [], [];
      ghost var d0 := disk.View();
      FileOf(d0, files, own, diskSector);
      HeldIsReadable(hdr.Slots(), hdr.numBytes, d0, FreeBits(d0, files), f);
      if seekPosition + numBytes > hdr.numBytes {
        outcome, g, taken, tail := Grow(disk, freeMapFile, numBytes, files, own, f);
        if outcome != Done {
          return;
        }
      } else {
        NoGrowth(d0, files, own, diskSector);
        TookNone(FreeBits(d0, files));
        OnlyInNothing(d0, diskSector, f, files[0]);
      }
      res := WriteGrown(disk, freeMapFile, from, numBytes, files, own, f, g, taken, tail, d0);
    }

    /** The write, once the file is long enough. */
    method WriteGrown(disk: SynchDisk, freeMapFile: OpenFile, from: array<Byte>, numBytes: int,
                      ghost files: map<int, File>, ghost own: map<int, int>, ghost f: File, ghost g: File,
                      ghost taken: seq<int>, ghost tail: seq<Byte>, ghost d0: seq<Sector>)
      returns (res: int)
      requires disk.Valid() && 0 <= numBytes <= from.Length && (numBytes == 0 || seekPosition >= 0)
      requires diskSector in files && files[diskSector] == f && diskSector != FREE_MAP_SECTOR &&
               FREE_MAP_SECTOR in files
      requires Opens(disk.View(), FreeBits(disk.View(), files), g)
      requires freeMapFile.Opens(disk.View(), FreeBits(disk.View(), files), files[0])
      requires FSInv(disk.View(), files[diskSector := g], OwnMore(own, diskSector, taken))
      requires OthersSame(d0, disk.View(), files, diskSector) && Longer(d0, disk.View(), f, g, tail)
      requires OnlyIn(d0, disk.View(), diskSector, g, files[0])
      modifies this`seekPosition, disk.sectors
      ensures FreeBits(disk.View(), files) == old(FreeBits(disk.View(), files))
      ensures SameBut(old(disk.View()), disk.View(), g.data) && g.length == f.length + |tail|
      ensures res == Clamp(g.length, numBytes, old(seekPosition)) && seekPosition == old(seekPosition) + res
      ensures Overwritten(d0, disk.View(), f, g, tail, old(seekPosition), from[..res])
      ensures OthersSame(d0, disk.View(), files, diskSector)
      ensures FSInv(disk.View(), files[diskSector := g], OwnMore(own, diskSector, taken))
      ensures OnlyIn(d0, disk.View(), diskSector, g, files[0])
      ensures Opens(disk.View(), FreeBits(disk.View(), files), g)
      ensures freeMapFile.Opens(disk.View(), FreeBits(disk.View(), files), files[0])
    {
      hide FileHeld, FSInv, StoredBits, IsMapFile, OthersSame, Longer, SameBut, HeaderOnDisk,
           FreeBits, Readable, SectorsOf, OwnMore, Overwritten, Content, Splice, OnlyIn;
      ghost var d1, files1, own1 := disk.View(), files[diskSector := g], OwnMore(own, diskSector, taken);
      HeldIsReadable(hdr.Slots(), hdr.numBytes, d1, FreeBits(d1, files), g);
      LongerLength(d0, d1, f, g, tail);
      res := WriteAt(disk, from, numBytes, seekPosition, FreeBits(d1, files), g);
      DataWriteKeepsFS(d1, disk.View(), files1, own1, diskSector);
      SameMapFile(files, files1, d1, disk.View());
      HeaderCopy(freeMapFile.hdr.Slots(), freeMapFile.hdr.numBytes, d1, FreeBits(d1, files), disk.View(),
                 FreeBits(d1, files), 0, files[0]) by {
        FileOf(disk.View(), files1, own1, 0);
      }
      OthersSameTwice(d0, d1, disk.View(), files, files1, diskSector);
      ThenOverwritten(d0, d1, disk.View(), f, g, tail, seekPosition, from[..res]);
      DataOnlyIn(d0, d1, disk.View(), diskSector, g, files[0]);
      seekPosition := seekPosition + res;
    }
  }

  /** The length that an allocation which came out short gives a file is a word. */
  lemma ShortFits(disk: seq<Sector>, bits: seq<bool>, h: int, f: File, numBytes: int)
    requires HeaderOnDisk(disk, bits, h, f) && numBytes >= 0 && DivRoundUp(numBytes, SECTOR_SIZE) <= CountClear(bits)
    ensures 0 <= f.length + numBytes < 0x8000_0000
  {
    HeldIsReadable(Words(disk[h])[3..] + [-1], Words(disk[h])[1], disk, bits, f);
  }

  /** A header with something in its second slot has been stored, and then the map. */
  lemma StoredShort(d2: seq<Sector>, d3: seq<Sector>, f0: File, h: int, slots: seq<int>)
    requires 0 <= h < |d2| && h !in f0.data && SameBut(d2, d3, f0.data)
    requires |slots| == NUM_DIRECT && Words(d2[h])[3..] == slots[..NUM_DIRECT - 1] && slots[1] != -1
    ensures Broken(d3, h)
  {
    hide Broken, Words;
    assert Words(d2[h])[4] == Words(d2[h])[3..][1];
    ShortHeaderBreaks(d3, h);
  }
}
