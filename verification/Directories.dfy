/** Directories (filesys/directory.cc): a table of 20-byte entries, held in memory as the bytes that
    are stored in the directory's file behind the number of entries. */
module Directories {
  import opened Sectors
  import opened Bitmaps
  import opened Blocks
  import opened FileHeaders
  import opened FileContents
  import opened Ownership
  import opened OpenFiles

  const FILE_NAME_MAX_LEN := 9
  const ENTRY_SIZE := 20
  const NUM_DIR_ENTRIES := 10

  // Offsets of the fields of an entry
  const AT_IN_USE := 1
  const AT_SECTOR := 4
  const AT_NAME := 8

  /** A name as it is passed around: the characters before the terminating zero. */
  type Name = s: seq<Byte> | 0 !in s

  datatype Entry = Entry(isDirectory: bool, inUse: bool, sector: int, name: seq<Byte>)

  /** The nine characters of an entry begin with those of the name, all of them or the first nine, and
      behind these there are zeros. */
  predicate HoldsName(stored: seq<Byte>, name: Name) {
    && |stored| == FILE_NAME_MAX_LEN
    && stored[..Min(9, |name|)] == name[..Min(9, |name|)]
    && forall i :: |name| <= i < 9 ==> stored[i] == 0
  }

  /** What a name is known by: its first nine characters, filled up with zeros. */
  function Key(name: Name): (k: seq<Byte>)
    ensures |k| == FILE_NAME_MAX_LEN && HoldsName(k, name)
  {
    seq(FILE_NAME_MAX_LEN, i requires 0 <= i < FILE_NAME_MAX_LEN => if i < |name| then name[i] else 0)
  }

  /** The entry made for a name is its key and nothing else. */
  lemma HeldIsKey(stored: seq<Byte>, name: Name)
    ensures HoldsName(stored, name) <==> stored == Key(name)
  {
    if HoldsName(stored, name) {
      forall i | 0 <= i < FILE_NAME_MAX_LEN
        ensures stored[i] == Key(name)[i]
      {
        assert i < |name| ==> stored[i] == stored[..Min(9, |name|)][i];
      }
    }
  }

  lemma KeyEnds(name: Name)
    ensures forall i :: 0 <= i < 9 ==> (Key(name)[i] == 0 <==> |name| <= i)
  {
    forall i | 0 <= i < 9
      ensures Key(name)[i] == 0 <==> |name| <= i
    {
      assert i < |name| ==> name[i] in name;
    }
  }

  /** An entry made for one name is taken for that of another exactly if their first nine characters are
      the same sequence; a name shorter than that only stands for itself. */
  lemma HeldByBoth(stored: seq<Byte>, a: Name, b: Name)
    requires HoldsName(stored, a)
    ensures HoldsName(stored, b) <==> a[..Min(9, |a|)] == b[..Min(9, |b|)]
    ensures Key(a) == Key(b) <==> a[..Min(9, |a|)] == b[..Min(9, |b|)]
    ensures Key(a) == Key(b) && |a| < 9 ==> a == b
  {
    HeldIsKey(stored, a);
    HeldIsKey(stored, b);
    var m, n := Min(9, |a|), Min(9, |b|);
    if Key(a) == Key(b) {
      KeyEnds(a);
      KeyEnds(b);
      assert (m < 9 ==> Key(a)[m] == 0) && (n < 9 ==> Key(b)[n] == 0);
      assert Key(a)[..m] == a[..m] && Key(b)[..n] == b[..n];
    } else if m == n {
      var i :| 0 <= i < 9 && Key(a)[i] != Key(b)[i];
      assert a[..m][i] != b[..n][i];
    }
  }

  /** Every stored name stands for some name. */
  lemma HoldsSome(stored: seq<Byte>) returns (name: Name)
    requires ZeroPadded(stored)
    ensures HoldsName(stored, name) && |name| <= 9
  {
    var n := 0;
    while n < 9 && stored[n] != 0
      invariant 0 <= n <= 9 && 0 !in stored[..n]
    {
      n := n + 1;
    }
    name := stored[..n];
  }

  /** Zeros only behind zeros, as `strncpy` leaves a name. */
  predicate ZeroPadded(k: seq<Byte>) {
    |k| == FILE_NAME_MAX_LEN && forall i, j :: 0 <= i < j < |k| && k[i] == 0 ==> k[j] == 0
  }

  /** `strncmp` from character `at` on: whether the stored name and the name agree. */
  predicate SameName(stored: seq<Byte>, name: Name, at: nat)
    requires |stored| == FILE_NAME_MAX_LEN && at <= FILE_NAME_MAX_LEN
    decreases FILE_NAME_MAX_LEN - at
  {
    at == FILE_NAME_MAX_LEN
    || (stored[at] == (if at < |name| then name[at] else 0) && (stored[at] == 0 || SameName(stored, name, at + 1)))
  }

  /** Comparing up to nine characters or the end of the names is comparing keys. */
  lemma {:induction false} SameNameIsSameKey(stored: seq<Byte>, name: Name, at: nat)
    requires ZeroPadded(stored) && at <= FILE_NAME_MAX_LEN
    requires at == 0 || (at <= |name| && stored[at - 1] != 0)
    ensures SameName(stored, name, at) <==> stored[at..] == Key(name)[at..]
    decreases FILE_NAME_MAX_LEN - at
  {
    if at < FILE_NAME_MAX_LEN {
      var k := Key(name);
      assert k[at..] == [k[at]] + k[at + 1..] && stored[at..] == [stored[at]] + stored[at + 1..];
      assert at < |name| ==> name[at] in name;
      if stored[at] == k[at] {
        if stored[at] == 0 {
          assert stored[at + 1..] == k[at + 1..];
        } else {
          SameNameIsSameKey(stored, name, at + 1);
        }
      }
    }
  }

  /** Entry `i` of a table. */
  function EntryAt(table: seq<Byte>, i: int): Entry
    requires 0 <= i && ENTRY_SIZE * i + ENTRY_SIZE <= |table|
  {
    var e := ENTRY_SIZE * i;
    Entry(table[e] != 0, table[e + AT_IN_USE] != 0, WordAt(table, e + AT_SECTOR),
          table[e + AT_NAME..e + AT_NAME + FILE_NAME_MAX_LEN])
  }

  function Entries(table: seq<Byte>): (es: seq<Entry>)
    ensures |es| == |table| / ENTRY_SIZE
  {
    seq(|table| / ENTRY_SIZE, i requires 0 <= i < |table| / ENTRY_SIZE => EntryAt(table, i))
  }

  /** `k` is the place of the entry in use that holds the name, or -1 if there is none. */
  ghost predicate IsPlaceOf(es: seq<Entry>, name: Name, k: int) {
    if k == -1 then forall i :: 0 <= i < |es| && es[i].inUse ==> !HoldsName(es[i].name, name)
    else 0 <= k < |es| && es[k].inUse && HoldsName(es[k].name, name)
  }

  /** In a table whose entries were made for these names, a name is found exactly if it has the first nine
      characters of the name of some entry in use. */
  lemma FoundByPrefix(es: seq<Entry>, names: seq<Name>, name: Name)
    requires |names| == |es| && forall i :: 0 <= i < |es| && es[i].inUse ==> HoldsName(es[i].name, names[i])
    ensures IsPlaceOf(es, name, -1) <==>
            forall i :: 0 <= i < |es| && es[i].inUse ==>
              names[i][..Min(9, |names[i]|)] != name[..Min(9, |name|)]
  {
    hide HoldsName;
    forall i | 0 <= i < |es| && es[i].inUse
      ensures HoldsName(es[i].name, name) <==> names[i][..Min(9, |names[i]|)] == name[..Min(9, |name|)]
    {
      HeldByBoth(es[i].name, names[i], name);
    }
  }

  ghost predicate NamesPadded(es: seq<Entry>) {
    forall i :: 0 <= i < |es| && es[i].inUse ==> ZeroPadded(es[i].name)
  }

  /** Bytes outside entry `i` make up the other entries. */
  lemma OtherEntries(t0: seq<Byte>, t1: seq<Byte>, i: int)
    requires |t1| == |t0| && |t0| % ENTRY_SIZE == 0 && 0 <= i < |t0| / ENTRY_SIZE
    requires forall b :: 0 <= b < |t0| && !(ENTRY_SIZE * i <= b < ENTRY_SIZE * i + ENTRY_SIZE) ==> t1[b] == t0[b]
    ensures Entries(t1) == Entries(t0)[i := EntryAt(t1, i)]
  {
    forall j | 0 <= j < |t0| / ENTRY_SIZE && j != i
      ensures EntryAt(t1, j) == EntryAt(t0, j)
    {
      var e := ENTRY_SIZE * j;
      assert forall b :: e <= b < e + ENTRY_SIZE ==> t1[b] == t0[b];
      assert t1[e + AT_NAME..e + AT_NAME + FILE_NAME_MAX_LEN] == t0[e + AT_NAME..e + AT_NAME + FILE_NAME_MAX_LEN];
    }
  }

  /** A directory file: the number of entries and the table, then anything. */
  ghost predicate StoredDir(content: seq<Byte>, table: seq<Byte>) {
    && |table| % ENTRY_SIZE == 0 && 4 + |table| <= |content|
    && WordAt(content, 0) == |table| / ENTRY_SIZE
    && content[4..4 + |table|] == table
  }

  /** What becomes of a directory file, number `h`, that a table of `size` entries has outgrown. If the map
      cannot hold the data the file system is as it was, but for the number of entries, which is new. */
  ghost predicate Outgrown(outcome: Outcome, d0: seq<Sector>, d1: seq<Sector>, files: map<int, File>,
                           own: map<int, int>, h: int, g: File, size: nat) {
    h in files &&
    var f, n, clear := files[h], DivRoundUp(ENTRY_SIZE * size, SECTOR_SIZE), CountClear(FreeBits(d0, files));
    && Decides(outcome, clear, n, Need(f, n), GoesOn(|f.data|, clear, n))
    && (clear < n ==> OnlyHead(d0, d1, files, own, h, size))
    && (outcome == Done ==> |g.data| == |f.data| + n && CountClear(FreeBits(d1, files)) == clear - Need(f, n))
  }

  ghost predicate OnlyHead(d0: seq<Sector>, d1: seq<Sector>, files: map<int, File>, own: map<int, int>, h: int,
                           size: nat) {
    && h in files && FSInv(d1, files, own) && FreeBits(d1, files) == FreeBits(d0, files) &&
       SameBut(d0, d1, files[h].data)
    && Readable(d1, files[h]) && 4 <= files[h].length && WordAt(Content(d1, files[h]), 0) == size
  }

  /** The table is stored in the directory file `h`, which is `g` now, with the sectors `taken` more. */
  ghost predicate TableStored(d0: seq<Sector>, d1: seq<Sector>, files: map<int, File>, own: map<int, int>, h: int,
                              g: File, taken: seq<int>, table: seq<Byte>) {
    && h in files && Readable(d1, g) && StoredDir(Content(d1, g), table)
    && g.length == files[h].length + (if files[h].length < 4 + |table| then |table| else 0)
    && OthersSame(d0, d1, files, h) && FSInv(d1, files[h := g], OwnMore(own, h, taken))
    && Took(FreeBits(d0, files), FreeBits(d1, files), taken)
    && FREE_MAP_SECTOR in files && OnlyIn(d0, d1, h, g, files[FREE_MAP_SECTOR])
  }

  class Directory {
    var tableSize: int
    var table: array<Byte>

    ghost predicate Valid()
      reads this
    {
      tableSize >= 0 && table.Length == ENTRY_SIZE * tableSize
    }

    ghost function View(): (es: seq<Entry>)
      requires Valid()
      reads this, table
      ensures |es| == tableSize
    {
      Entries(table[..])
    }

    constructor (size: nat)
      ensures Valid() && fresh(table) && tableSize == size
      ensures forall i :: 0 <= i < size ==> !View()[i].inUse
    {
      table := new Byte[ENTRY_SIZE * size];
      tableSize := size;
      new;
      for i := 0 to size
        invariant Valid() && tableSize == size && fresh(table)
        invariant forall j :: 0 <= j < i ==> !View()[j].inUse
      {
        ghost var before, es := table[..], View();
        table[ENTRY_SIZE * i + AT_IN_USE] := 0;
        OtherEntries(before, table[..], i);
        assert View()[i] == EntryAt(table[..], i);
        assert table[..][ENTRY_SIZE * i + AT_IN_USE] == 0;
        forall j | 0 <= j < i
          ensures !View()[j].inUse
        {
          assert View()[j] == es[j];
        }
      }
    }

    method FindIndex(name: Name) returns (k: int)
      requires Valid() && NamesPadded(View())
      ensures IsPlaceOf(View(), name, k)
    {
      for i := 0 to tableSize
        invariant forall j :: 0 <= j < i && View()[j].inUse ==> !HoldsName(View()[j].name, name)
      {
        var e := ENTRY_SIZE * i;
        ghost var entry := View()[i];
        assert entry == EntryAt(table[..], i);
        if table[e + AT_IN_USE] != 0 {
          assert table[e + AT_NAME..e + AT_NAME + FILE_NAME_MAX_LEN] == entry.name;
          SameNameIsSameKey(entry.name, name, 0);
          assert entry.name[0..] == entry.name && Key(name)[0..] == Key(name);
          HeldIsKey(entry.name, name);
          if SameName(table[e + AT_NAME..e + AT_NAME + FILE_NAME_MAX_LEN], name, 0) {
            return i;
          }
        }
      }
      return -1;
    }

    method Find(name: Name) returns (sector: int, ghost k: int)
      requires Valid() && NamesPadded(View())
      ensures IsPlaceOf(View(), name, k)
      ensures sector == if k == -1 then -1 else View()[k].sector
      ensures IsPlaceOf(View(), name, -1) ==> sector == -1
      ensures !IsPlaceOf(View(), name, -1) ==>
                exists i :: IsPlaceOf(View(), name, i) && i != -1 && sector == View()[i].sector
    {
      var i := FindIndex(name);
      k := i;
      if i != -1 {
        assert View()[i] == EntryAt(table[..], i);
        return WordOf(table[ENTRY_SIZE * i + 4], table[ENTRY_SIZE * i + 5], table[ENTRY_SIZE * i + 6],
                      table[ENTRY_SIZE * i + 7]), k;
      }
      return -1, k;
    }

    method JudgeDirectory(name: Name) returns (r: bool, ghost k: int)
      requires Valid() && NamesPadded(View())
      ensures IsPlaceOf(View(), name, k)
      ensures r == (k != -1 && View()[k].isDirectory)
      ensures IsPlaceOf(View(), name, -1) ==> !r
      ensures r ==> exists i :: IsPlaceOf(View(), name, i) && i != -1 && View()[i].isDirectory
    {
      var i := FindIndex(name);
      k := i;
      r := i != -1 && table[ENTRY_SIZE * i] != 0;
      assert i != -1 ==> View()[i] == EntryAt(table[..], i);
    }

    /** Fills entry `i` for a file. */
    method SetEntry(i: int, name: Name, newSector: Word)
      requires Valid() && 0 <= i < tableSize
      modifies table
      ensures View() == old(View())[i := Entry(false, true, newSector, Key(name))]
    {
      var e := ENTRY_SIZE * i;
      ghost var before := table[..];
      table[e + AT_IN_USE] := 1;
      var key := Key(name);
      forall c | 0 <= c < FILE_NAME_MAX_LEN {
        table[e + AT_NAME + c] := key[c];
      }
      forall c | 0 <= c < 4 {
        table[e + AT_SECTOR + c] := ByteOf(newSector, c);
      }
      table[e] := 0;
      WordOfBytes(newSector);
      assert table[e + AT_SECTOR + 0] == ByteOf(newSector, 0) && table[e + AT_SECTOR + 1] == ByteOf(newSector, 1);
      assert table[e + AT_SECTOR + 2] == ByteOf(newSector, 2) && table[e + AT_SECTOR + 3] == ByteOf(newSector, 3);
      assert table[e + AT_NAME..e + AT_NAME + FILE_NAME_MAX_LEN] == key;
      OtherEntries(before, table[..], i);
    }

    /** Adds a file in the first free entry; a full table is doubled first. A name whose first nine
        characters are in use is refused. */
    method Add(name: Name, newSector: Word) returns (ok: bool, ghost k: int)
      requires Valid() && NamesPadded(View())
      modifies this, table
      ensures Valid() && (table == old(table) || fresh(table))
      ensures !ok ==> View() == old(View()) && tableSize == old(tableSize)
      ensures ok <==> IsPlaceOf(old(View()), name, -1) && (tableSize > 0)
      ensures ok ==> 0 <= k < tableSize && HoldsName(View()[k].name, name)
      ensures ok ==> forall i :: 0 <= i < k && i < old(tableSize) ==> old(View())[i].inUse
      ensures ok && k < old(tableSize) ==>
                && tableSize == old(tableSize) && table == old(table) && !old(View())[k].inUse
                && View() == old(View())[k := Entry(false, true, newSector, Key(name))]
      ensures ok && k >= old(tableSize) ==>
                && tableSize == 2 * old(tableSize) && k == old(tableSize)
                && View()[..old(tableSize)] == old(View()) && View()[k] == Entry(false, true, newSector, Key(name))
                && forall i :: k < i < tableSize ==> !View()[i].inUse
    {
      k := -1;
      var index := FindIndex(name);
      if index != -1 {
        return false, -1;
      }
      for i := 0 to tableSize
        invariant Valid() && unchanged(this) && unchanged(table)
        invariant forall j :: 0 <= j < i ==> View()[j].inUse
      {
        assert View()[i] == EntryAt(table[..], i);
        if table[ENTRY_SIZE * i + AT_IN_USE] == 0 {
          SetEntry(i, name, newSector);
          return true, i;
        }
      }
      ghost var size := tableSize;
      ExpandSize(tableSize * 2);
      for i := 0 to tableSize
        invariant Valid() && fresh(table) && tableSize == 2 * size && View()[..size] == old(View())
        invariant i <= size && forall j :: size <= j < tableSize ==> !View()[j].inUse
      {
        assert View()[i] == EntryAt(table[..], i);
        if table[ENTRY_SIZE * i + AT_IN_USE] == 0 {
          SetEntry(i, name, newSector);
          return true, i;
        }
      }
      return false, -1;
    }

    /** Takes a file out; the entry keeps its other fields. */
    method Remove(name: Name) returns (ok: bool, ghost k: int)
      requires Valid() && NamesPadded(View())
      modifies table
      ensures IsPlaceOf(old(View()), name, k) && ok == (k != -1)
      ensures View() == if ok then old(View())[k := old(View())[k].(inUse := false)] else old(View())
    {
      var i := FindIndex(name);
      k := i;
      if i == -1 {
        return false, k;
      }
      ghost var before := table[..];
      table[ENTRY_SIZE * i + AT_IN_USE] := 0;
      OtherEntries(before, table[..], i);
      SameButInUse(before, table[..], i);
      return true, k;
    }

    /** Reads the directory back; a stored table twice as large makes room for itself. */
    method FetchFrom(disk: SynchDisk, file: OpenFile, ghost bits: seq<bool>, ghost f: File)
      requires Valid() && disk.Valid() && file.Opens(disk.View(), bits, f)
      requires Readable(disk.View(), f) && 4 <= f.length
      requires WordAt(Content(disk.View(), f), 0) in {tableSize, 2 * tableSize}
      requires 4 + ENTRY_SIZE * WordAt(Content(disk.View(), f), 0) <= f.length
      modifies this, table, file`seekPosition
      ensures Valid() && (table == old(table) || fresh(table)) && file.seekPosition == 0
      ensures tableSize == WordAt(Content(disk.View(), f), 0)
      ensures StoredDir(Content(disk.View(), f), table[..])
    {
      hide FileHeld, EntryAt, Content, ByteIn, Splice, StoredDir, Entries, WordOf, Readable;
      ghost var content := Content(disk.View(), f);
      var head := new Byte[4](_ => 0);
      ghost var h0 := head[..];
      file.Seek(0);
      var _ := file.Read(disk, head, 4, bits, f);
      WholeSplice(h0, content[0..4]);
      assert content[0..4] == content[..4];
      WordAtFront(content);
      var size := WordOf(head[0], head[1], head[2], head[3]);
      if size > tableSize {
        ExpandSize(size);
      }
      ghost var t0 := table[..];
      var res := file.Read(disk, table, tableSize * ENTRY_SIZE, bits, f);
      if res > 0 {
        WholeSplice(t0, content[4..4 + |t0|]);
      }
      IsStoredDir(content, table[..], tableSize);
      file.Seek(0);
    }

    /** Stores the number of entries and the table. Only the second of the two writes can grow the
        file; by the time it fails the new number of entries has been stored. */
    method WriteBack(disk: SynchDisk, file: OpenFile, freeMapFile: OpenFile,
                     ghost files: map<int, File>, ghost own: map<int, int>, ghost f: File)
      returns (outcome: Outcome, ghost g: File, ghost taken: seq<int>)
      requires Valid() && tableSize < 0x8000_0000 && disk.Valid() && FSInv(disk.View(), files, own)
      requires file.diskSector in files && files[file.diskSector] == f && file.diskSector != FREE_MAP_SECTOR
      requires file.Opens(disk.View(), FreeBits(disk.View(), files), f) && 4 <= f.length
      requires freeMapFile.Opens(disk.View(), FreeBits(disk.View(), files), files[0])
      requires file.hdr != freeMapFile.hdr && file.hdr.dataSectors != freeMapFile.hdr.dataSectors
      modifies file`seekPosition, file.hdr, file.hdr.dataSectors, disk.sectors
      ensures if 4 + ENTRY_SIZE * tableSize <= f.length then
                outcome == Done && g == f && taken == [] && SameBut(old(disk.View()), disk.View(), f.data)
              else
                Outgrown(outcome, old(disk.View()), disk.View(), files, own, file.diskSector, g, tableSize)
      ensures outcome == Short ==> Broken(disk.View(), file.diskSector)
      ensures outcome == Done ==>
                && TableStored(old(disk.View()), disk.View(), files, own, file.diskSector, g, taken, table[..])
                && file.Opens(disk.View(), FreeBits(disk.View(), files), g)
                && freeMapFile.Opens(disk.View(), FreeBits(disk.View(), files), files[0])
    {
      hide FileHeld, FSInv, StoredBits, IsMapFile, OthersSame, Longer, CountClear, SameBut, HeaderOnDisk, Broken, Took,
           Wrote, FreeBits, Readable, SectorsOf, Need, OwnMore, Content, Splice, StoredDir, OnlyIn, Growth, Outgrown,
           TableStored;
      g, taken := f, [];
      ghost var h, d0 := file.diskSector, disk.View();
      var word: Word := tableSize;
      var head := new Byte[4](i requires 0 <= i < 4 => ByteOf(word, i));
      file.Seek(0);
      var res; ghost var tail;
      res, outcome, g, taken, tail := file.Write(disk, freeMapFile, head, 4, files, own, f);
      ghost var d1 := disk.View();
      assert head[..4] == EncodeWord(word);
      HeadWritten(d0, d1, files, own, h, word);
      res, outcome, g, taken, tail := file.Write(disk, freeMapFile, table, ENTRY_SIZE * tableSize, files, own, f);
      ghost var d2 := disk.View();
      if 4 + ENTRY_SIZE * tableSize <= f.length {
        SameTwice(d0, d1, d2, f.data);
      } else {
        HasOutgrown(outcome, d0, d1, d2, files, own, h, g, word);
      }
      if outcome != Done {
        return;
      }
      TableWritten(d0, d1, d2, files, own, h, g, taken, tail, word, table[..], res);
      file.Seek(0);
    }

    method ExpandSize(num: int)
      requires Valid() && num == tableSize * 2
      modifies this
      ensures Valid() && fresh(table) && tableSize == 2 * old(tableSize)
      ensures forall i :: 0 <= i < old(tableSize) ==> View()[i] == old(View())[i]
      ensures forall i :: old(tableSize) <= i < tableSize ==> !View()[i].inUse
    {
      var newTable := new Byte[ENTRY_SIZE * num];
      for i := 0 to num
        invariant Valid() && unchanged(this)
        invariant forall b :: 0 <= b < ENTRY_SIZE * i && b < table.Length ==> newTable[b] == table[b]
        invariant forall j :: tableSize <= j < i ==> newTable[ENTRY_SIZE * j + AT_IN_USE] == 0
      {
        var e := ENTRY_SIZE * i;
        if i < tableSize {
          ghost var before := newTable[..];
          forall b | 0 <= b < ENTRY_SIZE {
            newTable[e + b] := table[e + b];
          }
          forall b | 0 <= b < e + ENTRY_SIZE
            ensures newTable[b] == table[b]
          {
            if b >= e {
              assert newTable[e + (b - e)] == table[e + (b - e)];
            }
          }
        } else {
          newTable[e + AT_IN_USE] := 0;
        }
      }
      ghost var t0, t1, size := table[..], newTable[..], tableSize;
      table := newTable;
      tableSize := tableSize * 2;
      forall i | 0 <= i < size
        ensures View()[i] == Entries(t0)[i]
      {
        SameEntry(t0, t1, i);
      }
    }
  }

  function EncodeWord(w: Word): (bs: seq<Byte>)
    ensures |bs| == 4 && WordAt(bs, 0) == w
  {
    WordOfBytes(w);
    [ByteOf(w, 0), ByteOf(w, 1), ByteOf(w, 2), ByteOf(w, 3)]
  }

  lemma WholeSplice(bs: seq<Byte>, part: seq<Byte>)
    requires |part| == |bs|
    ensures Splice(bs, 0, part) == part
  {
  }

  lemma IsStoredDir(content: seq<Byte>, table: seq<Byte>, size: int)
    requires size >= 0 && |table| == ENTRY_SIZE * size && 4 + |table| <= |content|
    requires WordAt(content, 0) == size && (table == [] || content[4..4 + |table|] == table)
    ensures StoredDir(content, table)
  {
  }

  lemma Unchanged(files: map<int, File>, own: map<int, int>, h: int)
    requires h in files
    ensures files[h := files[h]] == files && OwnMore(own, h, []) == own
  {
  }

  lemma SameTwice(d0: seq<Sector>, d1: seq<Sector>, d2: seq<Sector>, except: seq<int>)
    requires SameBut(d0, d1, except) && SameBut(d1, d2, except)
    ensures SameBut(d0, d2, except)
  {
  }

  /** The first write leaves the number of entries at the front of the file, and all else as it was. */
  lemma HeadWritten(d0: seq<Sector>, d1: seq<Sector>, files: map<int, File>, own: map<int, int>, h: int, size: Word)
    requires h in files && 4 <= files[h].length && Wrote(d0, d1, files, own, h, files[h], [], [], 0, EncodeWord(size))
    requires size >= 0 && SameBut(d0, d1, files[h].data) && FreeBits(d1, files) == FreeBits(d0, files)
    ensures OnlyHead(d0, d1, files, own, h, size) && FSInv(d1, files, own) && FreeBits(d1, files) == FreeBits(d0, files)
  {
    hide Content, Readable, Splice, WordOf, ByteOf, EncodeWord, FSInv, OthersSame, FreeBits, SameBut, OnlyIn;
    Unchanged(files, own, h);
    var c0 := Content(d0, files[h]);
    assert c0 + [] == c0;
    FrontOfSplice(c0, EncodeWord(size));
    WordAtFront(Content(d1, files[h]));
  }

  /** Nothing that the second write does about the map differs for the first one. */
  lemma HasOutgrown(outcome: Outcome, d0: seq<Sector>, d1: seq<Sector>, d2: seq<Sector>, files: map<int, File>,
                    own: map<int, int>, h: int, g: File, size: Word)
    requires size >= 0 && OnlyHead(d0, d1, files, own, h, size)
    requires Growth(outcome, d1, d2, files, files[h], g, ENTRY_SIZE * size)
    ensures Outgrown(outcome, d0, d2, files, own, h, g, size)
  {
    hide Content, Readable, FSInv, FreeBits, SameBut, CountClear, Need;
  }

  lemma TableWritten(d0: seq<Sector>, d1: seq<Sector>, d2: seq<Sector>, files: map<int, File>, own: map<int, int>,
                     h: int, g: File, taken: seq<int>, tail: seq<Byte>, size: Word, table: seq<Byte>, res: int)
    requires h in files && 4 <= files[h].length && FSInv(d1, files, own) && FreeBits(d1, files) == FreeBits(d0, files)
    requires Wrote(d0, d1, files, own, h, files[h], [], [], 0, EncodeWord(size)) && 0 <= res <= |table|
    requires Wrote(d1, d2, files, own, h, g, taken, tail, 4, table[..res])
    requires |table| == ENTRY_SIZE * size && res == Clamp(g.length, |table|, 4)
    requires |tail| == if files[h].length < 4 + |table| then |table| else 0
    ensures TableStored(d0, d2, files, own, h, g, taken, table)
  {
    hide Content, Readable, Splice, StoredDir, EncodeWord, FSInv, OthersSame, FreeBits, OnlyIn, Overwritten, OwnMore,
         Took;
    DirStored(d0, d1, d2, files[h], g, tail, size, table, res);
    OthersSameTwice(d0, d1, d2, files, files, h);
    UsesMore(files, own, h, g, taken) by { FSOwns(d1, files, own); FSOwns(d2, files[h := g], OwnMore(own, h, taken)); }
    OnlyInTwice(d0, d1, d2, h, files[h], g, files[0]);
  }

  lemma UsesMore(files: map<int, File>, own: map<int, int>, h: int, g: File, taken: seq<int>)
    requires h in files && Owns(files, own) && Owns(files[h := g], OwnMore(own, h, taken))
    ensures forall s :: Uses(h, files[h], s) ==> Uses(h, g, s)
  {
    hide SectorsOf, Uses;
    var files1, own1 := files[h := g], OwnMore(own, h, taken);
    forall s | Uses(h, files[h], s)
      ensures Uses(h, g, s)
    {
      assert s in own1 && own1[s] == h;
      assert Uses(own1[s], files1[own1[s]], s);
    }
  }

  lemma OnlyInTwice(d0: seq<Sector>, d1: seq<Sector>, d2: seq<Sector>, h: int, f: File, g: File, f0: File)
    requires OnlyIn(d0, d1, h, f, f0) && OnlyIn(d1, d2, h, g, f0) && forall s :: Uses(h, f, s) ==> Uses(h, g, s)
    ensures OnlyIn(d0, d2, h, g, f0)
  {
    hide Uses;
  }

  /** The two writes leave the number of entries and the table at the front of the file. */
  lemma DirStored(d0: seq<Sector>, d1: seq<Sector>, d2: seq<Sector>, f: File, g: File, tail: seq<Byte>,
                  size: Word, table: seq<Byte>, res: int)
    requires Overwritten(d0, d1, f, f, [], 0, EncodeWord(size)) && 4 <= f.length && 0 <= res <= |table|
    requires Overwritten(d1, d2, f, g, tail, 4, table[..res])
    requires |table| == ENTRY_SIZE * size && res == |table| && 4 + |table| <= g.length
    requires g.length == f.length + |tail|
    ensures Readable(d2, g) && StoredDir(Content(d2, g), table)
  {
    hide Content, Readable, Splice, StoredDir, WordOf, ByteOf, EncodeWord;
    assert table[..res] == table;
    var c0, c1, head := Content(d0, f), Content(d1, f), EncodeWord(size);
    assert c0 + [] == c0;
    FrontOfSplice(c0, head);
    if table == [] {
      assert (c1 + tail)[..4] == c1[..4];
      WordAtFront(c1 + tail);
    } else {
      AfterHead(c1 + tail, table);
      assert (c1 + tail)[..4] == c1[..4];
      WordAtFront(Content(d2, g));
    }
    IsStoredDir(Content(d2, g), table, size);
  }

  lemma FrontOfSplice(bs: seq<Byte>, head: seq<Byte>)
    requires |head| == 4 <= |bs|
    ensures Splice(bs, 0, head)[..4] == head
  {
  }

  lemma AfterHead(bs: seq<Byte>, part: seq<Byte>)
    requires 4 + |part| <= |bs|
    ensures Splice(bs, 4, part)[..4] == bs[..4] && Splice(bs, 4, part)[4..4 + |part|] == part
  {
  }

  lemma WordAtFront(bs: seq<Byte>)
    requires |bs| >= 4
    ensures WordAt(bs, 0) == WordAt(bs[..4], 0)
  {
  }

  lemma SameButInUse(t0: seq<Byte>, t1: seq<Byte>, i: int)
    requires 0 <= i && ENTRY_SIZE * i + ENTRY_SIZE <= |t0| && t1 == t0[ENTRY_SIZE * i + AT_IN_USE := 0]
    ensures EntryAt(t1, i) == EntryAt(t0, i).(inUse := false)
  {
    var e := ENTRY_SIZE * i;
    assert t1[e + AT_NAME..e + AT_NAME + FILE_NAME_MAX_LEN] == t0[e + AT_NAME..e + AT_NAME + FILE_NAME_MAX_LEN];
  }

  lemma SameEntry(t0: seq<Byte>, t1: seq<Byte>, i: int)
    requires 0 <= i && ENTRY_SIZE * i + ENTRY_SIZE <= |t0| <= |t1|
    requires forall b :: 0 <= b < |t0| ==> t1[b] == t0[b]
    ensures EntryAt(t1, i) == EntryAt(t0, i)
  {
    var e := ENTRY_SIZE * i;
    assert t1[e + AT_NAME..e + AT_NAME + FILE_NAME_MAX_LEN] == t0[e + AT_NAME..e + AT_NAME + FILE_NAME_MAX_LEN];
  }
}
