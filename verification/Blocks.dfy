/** Index blocks (filesys/block_for_file.cc). An index block is one sector of 32 slots: the
    indirect one points at data sectors, the double-indirect one at indirect blocks. A slot that
    is not in use holds -1.

    The abstract value of a double-indirect block is the sequence `index` of its indirect sectors
    and the sequence `data` of the data sectors below them, in file order. */
module Blocks {
  import opened Sectors
  import opened Bitmaps

  const MAX_BLOCKS_NUM := WORDS_PER_SECTOR
  const MAX_TREE := MAX_BLOCKS_NUM * MAX_BLOCKS_NUM

  // ---------------------------------------------------------------- abstract values

  /** A block whose slots are filled from the front with `slots`. */
  function Pad(slots: seq<int>): (p: seq<int>)
    requires |slots| <= MAX_BLOCKS_NUM
    ensures |p| == MAX_BLOCKS_NUM
  {
    slots + seq(MAX_BLOCKS_NUM - |slots|, _ => -1)
  }

  /** The data sectors that indirect block `j` holds. */
  function Chunk(data: seq<int>, j: int): (c: seq<int>)
    requires 0 <= j && MAX_BLOCKS_NUM * j <= |data|
    ensures |c| <= MAX_BLOCKS_NUM
  {
    data[MAX_BLOCKS_NUM * j..Min(MAX_BLOCKS_NUM * j + MAX_BLOCKS_NUM, |data|)]
  }

  /** How many indirect blocks `n` data sectors need. */
  function IndexCount(n: int): int
    requires n >= 0
  {
    DivRoundUp(n, MAX_BLOCKS_NUM)
  }

  /** How many new indirect blocks `n` more data sectors need after the first `have`. */
  function NewIndex(have: int, n: int): int
    requires have >= 0 && n >= 0
  {
    IndexCount(have + n) - IndexCount(have)
  }

  lemma IndexMonotone(have: int, n: int)
    requires have >= 0 && n >= 0
    ensures NewIndex(have, n) >= 0 && NewIndex(have, 0) == 0
  {
  }

  /** The index block for whose sector `clear` clear ones just do not suffice, when the first `have` data
      sectors are to be followed by `n`. */
  function RunsOutAt(have: int, clear: int, n: int): int
    requires have >= 0
  {
    IndexCount(have) + clear - n
  }

  /** What a tree leaves over of the clear sectors when it runs short, every slot having taken one; if this
      is negative they do not even suffice for that. */
  function LeftOver(have: int, clear: int, n: int): int
    requires have >= 0
  {
    have + n - 31 * RunsOutAt(have, clear, n) - MAX_BLOCKS_NUM
  }

  ghost predicate InDisk(s: seq<int>) {
    forall i :: 0 <= i < |s| ==> 0 <= s[i] < NUM_SECTORS
  }

  /** On `disk`, the indirect blocks `index` hold exactly the data sectors `data`. */
  ghost predicate IndexOnDisk(disk: seq<Sector>, index: seq<int>, data: seq<int>) {
    && |disk| == NUM_SECTORS
    && |data| <= MAX_TREE
    && |index| == IndexCount(|data|)
    && InDisk(index) && InDisk(data)
    && forall j :: 0 <= j < |index| ==> Words(disk[index[j]]) == Pad(Chunk(data, j))
  }

  /** No sector of the tree has two uses in it. */
  ghost predicate Apart(index: seq<int>, data: seq<int>) {
    && Distinct(index)
    && Distinct(data)
    && forall x :: x in index ==> x !in data
  }

  ghost predicate AllMarked(bits: seq<bool>, s: seq<int>) {
    forall x :: x in s ==> 0 <= x < |bits| && bits[x]
  }

  /** `s'` has the elements of `s` and those of `more`. */
  ghost predicate Grown(s: seq<int>, s': seq<int>, more: seq<int>) {
    forall x :: x in s' <==> x in s || x in more
  }

  /** The slot in which data sector `k` is found. */
  lemma SlotAt(data: seq<int>, k: int)
    requires 0 <= k && MAX_BLOCKS_NUM * (k / MAX_BLOCKS_NUM) <= |data|
    ensures Pad(Chunk(data, k / MAX_BLOCKS_NUM))[k % MAX_BLOCKS_NUM] == if k < |data| then data[k] else -1
  {
  }

  /** The blocks on disk determine the data sectors below them. */
  lemma SameIndexSameData(disk: seq<Sector>, index: seq<int>, d1: seq<int>, d2: seq<int>)
    requires IndexOnDisk(disk, index, d1) && IndexOnDisk(disk, index, d2) && |d1| <= |d2|
    ensures d1 == d2
  {
    if |d1| < |d2| {
      SlotAt(d1, |d1|);
      SlotAt(d2, |d1|);
      assert false;
    }
    forall k | 0 <= k < |d1|
      ensures d1[k] == d2[k]
    {
      assert Words(disk[index[k / MAX_BLOCKS_NUM]]) == Pad(Chunk(d1, k / MAX_BLOCKS_NUM));
      SlotAt(d1, k);
      SlotAt(d2, k);
    }
  }

  /** `after` is `before` without the marks of the sectors `gone`. */
  ghost predicate Freed(before: seq<bool>, after: seq<bool>, gone: seq<int>) {
    && |after| == |before|
    && forall s :: 0 <= s < |before| ==> after[s] == (before[s] && s !in gone)
  }

  lemma FreedNone(bits: seq<bool>)
    ensures Freed(bits, bits, [])
  {
  }

  /** Giving back what was taken, and what there was before, leaves the map without the latter. */
  lemma FreedUndoesTook(before: seq<bool>, after: seq<bool>, restored: seq<bool>, had: seq<int>, taken: seq<int>,
                        gone: seq<int>)
    requires Took(before, after, taken) && Freed(after, restored, gone) && Grown(had, gone, taken)
    ensures Freed(before, restored, had)
  {
  }

  /** The map has no mark less. */
  ghost predicate MoreMarked(before: seq<bool>, after: seq<bool>) {
    |after| == |before| && forall s :: 0 <= s < |before| && before[s] ==> after[s]
  }

  /** Whatever becomes of an allocation: no mark is lost, and of the sectors that were marked only those
      in `may` have changed. */
  ghost predicate Kept(d0: seq<Sector>, d1: seq<Sector>, b0: seq<bool>, b1: seq<bool>, may: seq<int>) {
    && MoreMarked(b0, b1) && |d1| == |d0|
    && forall s :: 0 <= s < |d0| && s < |b0| && b0[s] && s !in may ==> d1[s] == d0[s]
  }

  lemma TookMarks(before: seq<bool>, after: seq<bool>, taken: seq<int>)
    requires Took(before, after, taken)
    ensures MoreMarked(before, after)
  {
  }

  lemma StillMoreMarked(b0: seq<bool>, b1: seq<bool>, b2: seq<bool>, more: seq<int>)
    requires MoreMarked(b0, b1) && (b2 == b1 || Took(b1, b2, more))
    ensures MoreMarked(b0, b2)
  {
  }

  lemma KeptNone(d: seq<Sector>, b: seq<bool>, may: seq<int>)
    ensures Kept(d, d, b, b, may)
  {
  }

  lemma KeptMore(d0: seq<Sector>, d1: seq<Sector>, d2: seq<Sector>, b0: seq<bool>, b1: seq<bool>, b2: seq<bool>,
                 may: seq<int>, step: seq<int>)
    requires Kept(d0, d1, b0, b1, may) && Kept(d1, d2, b1, b2, step)
    requires forall x :: x in step && 0 <= x < |b0| && b0[x] ==> x in may
    ensures Kept(d0, d2, b0, b2, may)
  {
  }

  /** One sector is written: an old one, or one that was clear. */
  lemma KeptWrite(d0: seq<Sector>, d1: seq<Sector>, b0: seq<bool>, b1: seq<bool>, v: int, before: int)
    requires MoreMarked(b0, b1) && |d1| == |d0| && (forall s :: 0 <= s < |d0| && s != v ==> d1[s] == d0[s])
    requires v == before || (0 <= v < |b0| && !b0[v])
    ensures Kept(d0, d1, b0, b1, [before])
  {
  }

  // ---------------------------------------------------------------- the indirect block

  class Indirect {
    const dataSector: array<Word>

    ghost predicate Valid() {
      dataSector.Length == MAX_BLOCKS_NUM
    }

    ghost function View(): seq<int>
      reads dataSector
    {
      dataSector[..]
    }

    constructor ()
      ensures Valid() && fresh(dataSector)
      ensures View() == Pad([])
    {
      dataSector := new Word[MAX_BLOCKS_NUM](_ => -1);
    }

    method FetchFrom(disk: SynchDisk, num: int)
      requires Valid() && disk.Valid() && 0 <= num < NUM_SECTORS
      modifies dataSector
      ensures View() == Words(disk.View()[num])
    {
      var ws := disk.ReadWords(num);
      forall i | 0 <= i < MAX_BLOCKS_NUM {
        dataSector[i] := ws[i];
      }
    }

    method WriteBack(disk: SynchDisk, num: int)
      requires Valid() && disk.Valid() && 0 <= num < NUM_SECTORS
      modifies disk.sectors
      ensures |disk.View()| == |old(disk.View())| && Words(disk.View()[num]) == View()
      ensures forall s :: 0 <= s < NUM_SECTORS && s != num ==> disk.View()[s] == old(disk.View()[s])
    {
      disk.WriteWords(num, dataSector[..]);
    }

    /** Fills free slots with up to `numSectors` sectors taken from the map. The map must have
        `numSectors` clear sectors even when the block has fewer free slots. */
    method AllocateBlock(bm: Bitmap, numSectors: int, ghost slots: seq<int>)
      returns (count: int, ghost taken: seq<int>)
      requires Valid() && bm.Valid() && bm.numBits == NUM_SECTORS
      requires 0 <= numSectors <= CountClear(bm.Bits()) ==>
                 |slots| <= MAX_BLOCKS_NUM && View() == Pad(slots) && -1 !in slots
      modifies dataSector, bm.words
      ensures numSectors < 0 || CountClear(old(bm.Bits())) < numSectors ==>
                count == -1 && unchanged(dataSector) && unchanged(bm.words)
      ensures 0 <= numSectors <= CountClear(old(bm.Bits())) ==>
                && count == |taken| == Min(numSectors, MAX_BLOCKS_NUM - |slots|)
                && View() == Pad(slots + taken)
                && Took(old(bm.Bits()), bm.Bits(), taken)
    {
      hide Took, CountClear, Unpack, Bitmap.Bits;
      taken := [];
      if numSectors < 0 {
        return -1, [];
      }
      var clear := bm.NumClear();
      if clear < numSectors {
        return -1, [];
      }
      count := 0;
      var i := 0;
      ghost var bits := bm.Bits();
      TookNone(bits);
      while i < MAX_BLOCKS_NUM && count < numSectors
        invariant 0 <= i <= MAX_BLOCKS_NUM && count <= numSectors
        invariant count == |taken| == if i <= |slots| then 0 else i - |slots|
        invariant View() == Pad(slots + taken)
        invariant Took(bits, bm.Bits(), taken) && CountClear(bm.Bits()) == clear - count
      {
        assert i < |slots| ==> dataSector[i] == slots[i] && slots[i] in slots;
        if dataSector[i] == -1 {
          ghost var before := bm.Bits();
          var s := bm.FindAndSet();
          dataSector[i] := s;
          TookOne(before, s);
          TookMore(bits, before, bm.Bits(), taken, [s]);
          TookCount(bits, bm.Bits(), taken + [s]);
          assert slots + (taken + [s]) == (slots + taken) + [s];
          taken := taken + [s];
          count := count + 1;
        }
        i := i + 1;
      }
    }

    /** Gives back every sector in a slot; `slots` is marked, so no bit is cleared twice. */
    method DeallocateBlock(bm: Bitmap, ghost slots: seq<int>)
      requires Valid() && bm.Valid() && bm.numBits == NUM_SECTORS
      requires |slots| <= MAX_BLOCKS_NUM && View() == Pad(slots)
      requires -1 !in slots && Distinct(slots) && AllMarked(bm.Bits(), slots)
      modifies bm.words
      ensures Freed(old(bm.Bits()), bm.Bits(), slots)
    {
      ghost var bits := bm.Bits();
      for i := 0 to MAX_BLOCKS_NUM
        invariant Freed(bits, bm.Bits(), slots[..Min(i, |slots|)])
      {
        var store := dataSector[i];
        assert i < |slots| ==> store == slots[i] && slots[i] in slots;
        if store != -1 {
          assert store !in slots[..i];
          assert bm.Bits()[store];
          bm.Clear(store);
          assert slots[..i + 1] == slots[..i] + [store];
        }
      }
      assert slots[..|slots|] == slots;
    }

    method ByteConvertToSector(num: int, ghost slots: seq<int>) returns (r: int)
      requires Valid() && |slots| <= MAX_BLOCKS_NUM && View() == Pad(slots)
      requires 0 <= num && num / SECTOR_SIZE < |slots|
      ensures r == slots[num / SECTOR_SIZE]
    {
      r := dataSector[num / SECTOR_SIZE];
    }
  }

  /** The two disks agree on every sector but those in `except`. */
  ghost predicate SameBut(d0: seq<Sector>, d1: seq<Sector>, except: seq<int>) {
    && |d0| == |d1|
    && forall s :: 0 <= s < |d0| && s !in except ==> d1[s] == d0[s]
  }

  lemma SameNone(disk: seq<Sector>, except: seq<int>)
    ensures SameBut(disk, disk, except)
  {
  }

  lemma SameMore(d0: seq<Sector>, d1: seq<Sector>, d2: seq<Sector>, e1: seq<int>, added: seq<int>)
    requires SameBut(d0, d1, e1) && SameBut(d1, d2, e1 + added)
    ensures SameBut(d0, d2, e1 + added)
  {
  }

  // ---------------------------------------------------------------- growing a tree

  lemma AppendIndex(index: seq<int>, data: seq<int>, s: int)
    requires Apart(index, data) && s !in index && s !in data
    ensures Apart(index + [s], data)
  {
    forall x | x in index + [s]
      ensures x !in data
    {
    }
  }

  lemma AppendData(index: seq<int>, data: seq<int>, more: seq<int>)
    requires Apart(index, data) && Distinct(more)
    requires forall x :: x in more ==> x !in index && x !in data
    ensures Apart(index, data + more)
  {
    var d := data + more;
    forall i, j | 0 <= i < j < |d|
      ensures d[i] != d[j]
    {
      if i < |data| <= j {
        assert d[i] == data[i] && d[i] in data;
        assert d[j] == more[j - |data|] && d[j] in more;
      }
    }
  }

  /** Chunks other than the last one do not change when data is appended. */
  lemma ChunkStable(data: seq<int>, more: seq<int>, j: int)
    requires 0 <= j && MAX_BLOCKS_NUM * j + MAX_BLOCKS_NUM <= |data|
    ensures Chunk(data + more, j) == Chunk(data, j)
  {
  }

  /** What block `i` holds once `more` is put behind its chunk, as far as it has room. */
  lemma ChunkGrows(data: seq<int>, more: seq<int>, i: int)
    requires 0 <= i && MAX_BLOCKS_NUM * i <= |data|
    ensures |Chunk(data, i)| == Min(MAX_BLOCKS_NUM, |data| - MAX_BLOCKS_NUM * i)
    ensures |more| <= MAX_BLOCKS_NUM - |Chunk(data, i)| ==> Chunk(data + more, i) == Chunk(data, i) + more
    ensures more != [] && |more| <= MAX_BLOCKS_NUM - |Chunk(data, i)| ==>
              |data| + |more| <= MAX_BLOCKS_NUM * i + MAX_BLOCKS_NUM
  {
    if more == [] {
      assert data + more == data;
    }
  }

  /** Writing block `i` with the chunk it should hold turns the disk into one for `data + more`. */
  lemma WriteChunk(d0: seq<Sector>, d1: seq<Sector>, index: seq<int>, data: seq<int>, more: seq<int>, i: int)
    requires |d0| == |d1| == NUM_SECTORS && |data| + |more| <= MAX_TREE
    requires Distinct(index) && InDisk(index) && InDisk(data) && InDisk(more)
    requires 0 <= i < |index| && |index| == IndexCount(|data + more|)
    requires MAX_BLOCKS_NUM * i <= |data| && (more != [] ==> i == |index| - 1)
    requires forall j :: 0 <= j < |index| && j != i ==>
               MAX_BLOCKS_NUM * j <= |data| && Words(d0[index[j]]) == Pad(Chunk(data, j))
    requires Words(d1[index[i]]) == Pad(Chunk(data + more, i))
    requires forall s :: 0 <= s < NUM_SECTORS && s != index[i] ==> d1[s] == d0[s]
    ensures IndexOnDisk(d1, index, data + more)
  {
    forall j | 0 <= j < |index|
      ensures Words(d1[index[j]]) == Pad(Chunk(data + more, j))
    {
      if j != i {
        assert index[j] in index;
        assert index[j] != index[i];
        if more == [] {
          assert data + more == data;
        } else {
          ChunkStable(data, more, j);
        }
      }
    }
  }

  // ---------------------------------------------------------------- the double-indirect block

  /** What a double-indirect block, the disk and the map agree on. */
  ghost predicate TreeHeld(view: seq<int>, disk: seq<Sector>, bits: seq<bool>, index: seq<int>, data: seq<int>) {
    && |index| <= MAX_BLOCKS_NUM && view == Pad(index)
    && IndexOnDisk(disk, index, data)
    && Apart(index, data)
    && AllMarked(bits, index) && AllMarked(bits, data)
  }

  /** `index`, `data` extend `index0`, `data0` by the sectors `taken` from the map. */
  ghost predicate Extends(index0: seq<int>, data0: seq<int>, index: seq<int>, data: seq<int>, taken: seq<int>) {
    && index0 <= index
    && data0 <= data
    && Grown(index0 + data0, index + data, taken)
  }

  ghost predicate Slots(view: seq<int>) {
    |view| == MAX_BLOCKS_NUM && forall i :: 0 <= i < |view| ==> -1 <= view[i] < NUM_SECTORS
  }

  /** One turn of the allocation loop at slot `i`, after which the tree is whole again:
      `fresh` is the new indirect block, if the slot was free, and `more` the new data. */
  lemma TurnKeepsTree(view: seq<int>, view': seq<int>, d0: seq<Sector>, d1: seq<Sector>, bits0: seq<bool>,
                      bits1: seq<bool>, bits2: seq<bool>, index: seq<int>, data: seq<int>, added: seq<int>,
                      more: seq<int>, i: int)
    requires TreeHeld(view, d0, bits0, index, data)
    requires |bits0| == NUM_SECTORS && Took(bits0, bits1, added) && Took(bits1, bits2, more)
    requires 0 <= i < MAX_BLOCKS_NUM && |data| + |more| <= MAX_TREE && MAX_BLOCKS_NUM * i <= |data|
    requires if i < |index| then added == [] else i == |index| && |added| == 1 && more != []
    requires more != [] ==> |data| + |more| <= MAX_BLOCKS_NUM * i + MAX_BLOCKS_NUM
    requires |d1| == NUM_SECTORS
    requires 0 <= (index + added)[i] < NUM_SECTORS
    requires forall s :: 0 <= s < NUM_SECTORS && s != (index + added)[i] ==> d1[s] == d0[s]
    requires Words(d1[(index + added)[i]]) == Pad(Chunk(data + more, i))
    requires view' == if added == [] then view else view[i := added[0]]
    ensures TreeHeld(view', d1, bits2, index + added, data + more)
    ensures Extends(index, data, index + added, data + more, added + more)
    ensures |index + added| - |index| == IndexCount(|data + more|) - IndexCount(|data|)
  {
    hide Words, CountClear, Chunk;
    var index' := index + added;
    TurnExtends(index, data, added, more, i);
    assert Distinct(index') && Apart(index', data) by {
      if added != [] {
        assert added == [added[0]] && added[0] in added;
        assert added[0] !in index && added[0] !in data;
        AppendIndex(index, data, added[0]);
      }
    }
    assert forall x :: x in more ==> !bits1[x];
    AppendData(index', data, more);
    assert InDisk(index') && InDisk(more) by {
      assert forall k :: 0 <= k < |added| ==> added[k] in added;
      assert forall k :: 0 <= k < |more| ==> more[k] in more;
    }
    WriteChunk(d0, d1, index', data, more, i);
    assert view' == Pad(index') by {
      assert added != [] ==> index' == index + [added[0]];
    }
  }

  lemma TurnExtends(index: seq<int>, data: seq<int>, added: seq<int>, more: seq<int>, i: int)
    requires |index| == IndexCount(|data|) && MAX_BLOCKS_NUM * i <= |data|
    requires if i < |index| then added == [] else i == |index| && |added| == 1 && more != []
    requires more != [] ==> |data| + |more| <= MAX_BLOCKS_NUM * i + MAX_BLOCKS_NUM
    ensures Extends(index, data, index + added, data + more, added + more)
    ensures |index + added| == IndexCount(|data + more|)
  {
  }

  lemma ExtendsNone(view: seq<int>, disk: seq<Sector>, bits: seq<bool>, index: seq<int>, data: seq<int>)
    requires TreeHeld(view, disk, bits, index, data)
    ensures Extends(index, data, index, data, []) && Slots(view)
    ensures |index| == IndexCount(|data|) && |data| <= MAX_TREE
  {
  }

  lemma ExtendsMore(index0: seq<int>, data0: seq<int>, index: seq<int>, data: seq<int>, taken: seq<int>,
                    added: seq<int>, more: seq<int>)
    requires Extends(index0, data0, index, data, taken)
    requires Extends(index, data, index + added, data + more, added + more)
    ensures Extends(index0, data0, index + added, data + more, taken + (added + more))
  {
    forall x
      ensures x in index + added + (data + more) <==> x in index0 + data0 || x in taken + (added + more)
    {
      assert x in index + added + (data + more) <==> x in index + data || x in added + more;
      assert x in index + data <==> x in index0 + data0 || x in taken;
    }
  }

  /** What slot `i` holds: an indirect block with its chunk of the data, or nothing. */
  lemma SlotOfTree(view: seq<int>, disk: seq<Sector>, bits: seq<bool>, index: seq<int>, data: seq<int>, i: int)
    requires TreeHeld(view, disk, bits, index, data)
    requires 0 <= i < MAX_BLOCKS_NUM && MAX_BLOCKS_NUM * i <= |data|
    ensures |view| == MAX_BLOCKS_NUM && |disk| == NUM_SECTORS && |index| == IndexCount(|data|)
    ensures if i < |index| then
              && 0 <= view[i] == index[i] < NUM_SECTORS && Words(disk[view[i]]) == Pad(Chunk(data, i))
              && -1 !in Chunk(data, i) && MAX_BLOCKS_NUM * i < |data|
            else i == |index| && view[i] == -1 && Chunk(data, i) == []
  {
  }

  /** The allocation of `want` data sectors, of which `count` are in the tree, is on its way. */
  ghost predicate Going(view: seq<int>, d0: seq<Sector>, d: seq<Sector>, b0: seq<bool>, b: seq<bool>, index0: seq<int>,
                        data0: seq<int>, index: seq<int>, data: seq<int>, taken: seq<int>, count: int, want: int) {
    && 0 <= count <= want && |data| == |data0| + count && |index| == IndexCount(|data|)
    && TreeHeld(view, d, b, index, data) && |data0| + want <= MAX_TREE
    && Took(b0, b, taken) && Extends(index0, data0, index, data, taken)
    && CountClear(b) - (want - count) - NewIndex(|data|, want - count) ==
         CountClear(b0) - want - NewIndex(|data0|, want)
    && SameBut(d0, d, index)
  }

  lemma GoingStart(view: seq<int>, d: seq<Sector>, b: seq<bool>, index: seq<int>, data: seq<int>, want: int)
    requires TreeHeld(view, d, b, index, data) && 0 <= want && |data| + want <= MAX_TREE
    ensures Going(view, d, d, b, b, index, data, index, data, [], 0, want) && Slots(view)
  {
    hide CountClear, Extends, Took, SameBut;
    TookNone(b);
    ExtendsNone(view, d, b, index, data);
    SameNone(d, index);
  }

  lemma GoingParts(view: seq<int>, d0: seq<Sector>, d: seq<Sector>, b0: seq<bool>, b: seq<bool>, index0: seq<int>,
                   data0: seq<int>, index: seq<int>, data: seq<int>, taken: seq<int>, count: int, want: int)
    requires Going(view, d0, d, b0, b, index0, data0, index, data, taken, count, want)
    ensures 0 <= count <= want && |data| == |data0| + count && |index| == IndexCount(|data|) &&
            |data0| + want <= MAX_TREE
    ensures TreeHeld(view, d, b, index, data) && Took(b0, b, taken) && Extends(index0, data0, index, data, taken) &&
            SameBut(d0, d, index)
    ensures CountClear(b) - (want - count) - NewIndex(|data|, want - count) ==
              CountClear(b0) - want - NewIndex(|data0|, want)
    ensures NewIndex(|data|, want - count) >= if count < want && MAX_BLOCKS_NUM * |index| <= |data| then 1 else 0
    ensures count == want ==> CountClear(b) >= 0 && NewIndex(|data|, 0) == 0
  {
    hide CountClear, Extends, Took, SameBut, TreeHeld;
  }

  lemma GoingOn(view1: seq<int>, view2: seq<int>, d0: seq<Sector>, d1: seq<Sector>, d2: seq<Sector>, b0: seq<bool>,
                b1: seq<bool>, b2: seq<bool>, index0: seq<int>, data0: seq<int>, index: seq<int>, data: seq<int>,
                taken: seq<int>, count: int, want: int, added: seq<int>, more: seq<int>)
    requires Going(view1, d0, d1, b0, b1, index0, data0, index, data, taken, count, want) && |more| <= want - count
    requires TreeHeld(view2, d2, b2, index + added, data + more) && Took(b1, b2, added + more)
    requires Extends(index, data, index + added, data + more, added + more)
    requires |added| == IndexCount(|data + more|) - IndexCount(|data|)
    requires CountClear(b2) == CountClear(b1) - |added| - |more| && SameBut(d1, d2, index + added)
    ensures Going(view2, d0, d2, b0, b2, index0, data0, index + added, data + more, taken + (added + more),
                  count + |more|, want)
  {
    hide CountClear, Extends, Took, SameBut, TreeHeld;
    TookMore(b0, b1, b2, taken, added + more);
    ExtendsMore(index0, data0, index, data, taken, added, more);
    SameMore(d0, d1, d2, index, added);
  }

  /** The turn that fails is the one at slot `RunsOutAt`, and the slots behind it are free. */
  lemma FailsHere(view: seq<int>, d0: seq<Sector>, d: seq<Sector>, b0: seq<bool>, b: seq<bool>, index0: seq<int>,
                  data0: seq<int>, index: seq<int>, data: seq<int>, taken: seq<int>, count: int, want: int, i: int)
    requires Going(view, d0, d, b0, b, index0, data0, index, data, taken, count, want) && count < want
    requires 0 <= i < MAX_BLOCKS_NUM && MAX_BLOCKS_NUM * i <= |data| && CountClear(b) >= want - count
    requires CountClear(b) - (if i < |index| then 0 else 1) < want - count
    ensures i == |index| == RunsOutAt(|data0|, CountClear(b0), want) && |data| == MAX_BLOCKS_NUM * i
    ensures CountClear(b) == want - count && CountClear(b0) < want + NewIndex(|data0|, want)
    ensures |data0| + want == |data| + (want - count)
    ensures forall k :: i <= k < MAX_BLOCKS_NUM ==> view[k] == -1
  {
    hide CountClear, Extends, Took, SameBut;
    SlotOfTree(view, d, b, index, data, i);
  }

  class DoubleIndirect {
    const dataSector: array<Word>

    ghost predicate Valid() {
      dataSector.Length == MAX_BLOCKS_NUM
    }

    ghost function View(): seq<int>
      reads dataSector
    {
      dataSector[..]
    }

    constructor ()
      ensures Valid() && fresh(dataSector)
      ensures View() == Pad([])
    {
      dataSector := new Word[MAX_BLOCKS_NUM](_ => -1);
    }

    method FetchFrom(disk: SynchDisk, num: int)
      requires Valid() && disk.Valid() && 0 <= num < NUM_SECTORS
      modifies dataSector
      ensures View() == Words(disk.View()[num])
    {
      var ws := disk.ReadWords(num);
      forall i | 0 <= i < MAX_BLOCKS_NUM {
        dataSector[i] := ws[i];
      }
    }

    method WriteBack(disk: SynchDisk, num: int)
      requires Valid() && disk.Valid() && 0 <= num < NUM_SECTORS
      modifies disk.sectors
      ensures |disk.View()| == |old(disk.View())| && Words(disk.View()[num]) == View()
      ensures forall s :: 0 <= s < NUM_SECTORS && s != num ==> disk.View()[s] == old(disk.View()[s])
    {
      disk.WriteWords(num, dataSector[..]);
    }

    /** Appends `numSectors` data sectors to the tree. It does so exactly when the map also has
        the clear sectors for the new indirect blocks, which the code does not check. Short of
        them the count that comes back is too small and every slot has taken a sector, or, when there
        are not even that many, the code stops (`trapped`) on writing an indirect block to sector -1. */
    method AllocateBlock(disk: SynchDisk, bm: Bitmap, numSectors: int, ghost index0: seq<int>, ghost data0: seq<int>)
      returns (count: int, trapped: bool, ghost index: seq<int>, ghost data: seq<int>, ghost taken: seq<int>)
      requires Valid() && disk.Valid() && bm.Valid() && bm.numBits == NUM_SECTORS
      requires 0 <= numSectors <= CountClear(bm.Bits()) ==>
                 && TreeHeld(View(), disk.View(), bm.Bits(), index0, data0)
                 && |data0| + numSectors <= MAX_TREE
      modifies dataSector, bm.words, disk.sectors
      ensures numSectors < 0 || CountClear(old(bm.Bits())) < numSectors ==>
                && count == -1 && !trapped
                && unchanged(dataSector) && unchanged(bm.words) && unchanged(disk.sectors)
      ensures Kept(old(disk.View()), disk.View(), old(bm.Bits()), bm.Bits(), old(View()))
      ensures 0 <= numSectors <= CountClear(old(bm.Bits())) < numSectors + NewIndex(|data0|, numSectors) ==>
                && (trapped <==> LeftOver(|data0|, CountClear(old(bm.Bits())), numSectors) < 0)
                && (!trapped ==> count < numSectors && CountClear(bm.Bits()) < numSectors - count
                                 && CountClear(bm.Bits()) == LeftOver(|data0|, CountClear(old(bm.Bits())), numSectors))
      ensures 0 <= numSectors && numSectors + NewIndex(|data0|, numSectors) <= CountClear(old(bm.Bits())) ==>
                && !trapped && count == numSectors && |data| == |data0| + numSectors
                && TreeHeld(View(), disk.View(), bm.Bits(), index, data)
                && Took(old(bm.Bits()), bm.Bits(), taken)
                && Extends(index0, data0, index, data, taken)
                && SameBut(old(disk.View()), disk.View(), index)
    {
      hide TreeHeld, Took, Extends, CountClear, Unpack, Bitmap.Bits, SameBut, Slots, Kept, Going, NewIndex;
      index, data, taken, trapped := index0, data0, [], false;
      ghost var d0, bits, view0 := disk.View(), bm.Bits(), View();
      KeptNone(d0, bits, view0);
      if numSectors < 0 {
        return -1, false, index, data, taken;
      }
      IndexMonotone(|data0|, numSectors);
      var clear := bm.NumClear();
      if clear < numSectors {
        return -1, false, index, data, taken;
      }
      count := 0;
      ghost var failed := false;
      GoingStart(view0, d0, bits, index, data, numSectors);
      var i := 0;
      while i < MAX_BLOCKS_NUM && count < numSectors
        invariant 0 <= i <= MAX_BLOCKS_NUM && count <= numSectors
        invariant Slots(View()) && (forall k :: i <= k < MAX_BLOCKS_NUM ==> View()[k] == view0[k])
        invariant Kept(d0, disk.View(), bits, bm.Bits(), view0)
        invariant failed ==>
                    clear < numSectors + NewIndex(|data0|, numSectors) && CountClear(bm.Bits()) < numSectors - count
        invariant failed ==>
                    && RunsOutAt(|data0|, clear, numSectors) < i
                    && CountClear(bm.Bits()) == |data0| + numSectors - 31 * RunsOutAt(|data0|, clear, numSectors) - i
        invariant failed ==> forall k :: i <= k < MAX_BLOCKS_NUM ==> view0[k] == -1
        invariant !failed ==> CountClear(bm.Bits()) >= numSectors - count
        invariant !failed ==> Going(View(), d0, disk.View(), bits, bm.Bits(), index0, data0, index, data, taken, count,
                                    numSectors)
        invariant !failed && count < numSectors ==> MAX_BLOCKS_NUM * i <= |data|
      {
        ghost var bits1, d1, view1 := bm.Bits(), disk.View(), View();
        if !failed {
          GoingParts(view1, d0, d1, bits, bits1, index0, data0, index, data, taken, count, numSectors);
        }
        var result; ghost var added, more;
        result, trapped, added, more := FillSlot(disk, bm, i, numSectors - count, !failed, index, data);
        KeptMore(d0, d1, disk.View(), bits, bits1, bm.Bits(), view0, [view1[i]]) by {
          assert view1[i] == view0[i];
        }
        if trapped {
          return count, true, index, data, taken;
        }
        if !failed && result == -1 {
          FailsHere(view1, d0, d1, bits, bits1, index0, data0, index, data, taken, count, numSectors, i);
        }
        if !failed && result != -1 {
          GoingOn(view1, View(), d0, d1, disk.View(), bits, bits1, bm.Bits(), index0, data0, index, data, taken, count,
                  numSectors, added, more);
          index, data, taken := index + added, data + more, taken + (added + more);
        } else {
          failed := true;
        }
        count := count + result;
        i := i + 1;
      }
      if !failed {
        GoingParts(View(), d0, disk.View(), bits, bm.Bits(), index0, data0, index, data, taken, count, numSectors);
      }
    }

    /** The body of that loop: slot `i` gets an indirect block if it has none, and the block is
        asked for all the `want` sectors still missing. `whole` says that the tree is in order. */
    method FillSlot(disk: SynchDisk, bm: Bitmap, i: int, want: int, ghost whole: bool, ghost index: seq<int>,
                    ghost data: seq<int>)
      returns (result: int, trapped: bool, ghost added: seq<int>, ghost more: seq<int>)
      requires Valid() && disk.Valid() && bm.Valid() && bm.numBits == NUM_SECTORS
      requires 0 <= i < MAX_BLOCKS_NUM && want > 0 && Slots(View())
      requires whole ==>
                 && TreeHeld(View(), disk.View(), bm.Bits(), index, data)
                 && MAX_BLOCKS_NUM * i <= |data| && |data| + want <= MAX_TREE
      requires !whole ==> CountClear(bm.Bits()) < want
      modifies dataSector, bm.words, disk.sectors
      ensures trapped <==> old(View())[i] == -1 && CountClear(old(bm.Bits())) == 0
      ensures !whole && !trapped && old(View())[i] == -1 ==> CountClear(bm.Bits()) == CountClear(old(bm.Bits())) - 1
      ensures whole && !trapped ==>
                (result == -1 <==> CountClear(old(bm.Bits())) - (if i < |index| then 0 else 1) < want)
      ensures Kept(old(disk.View()), disk.View(), old(bm.Bits()), bm.Bits(), [old(View())[i]])
      ensures forall k :: i < k < MAX_BLOCKS_NUM ==> View()[k] == old(View())[k]
      ensures !trapped ==> Slots(View()) && result >= -1
      ensures !whole && !trapped ==> result == -1
      ensures CountClear(bm.Bits()) <= CountClear(old(bm.Bits()))
      ensures !trapped && result == -1 ==> CountClear(bm.Bits()) < want
      ensures whole && !trapped && result == -1 ==>
                CountClear(bm.Bits()) == CountClear(old(bm.Bits())) - if i < |index| then 0 else 1
      ensures whole && !trapped && result != -1 ==>
                && result == |more| <= want && |added| <= (if i < |index| then 0 else 1)
                && (MAX_BLOCKS_NUM * i + MAX_BLOCKS_NUM <= |data + more| || |more| == want)
                && TreeHeld(View(), disk.View(), bm.Bits(), index + added, data + more)
                && Took(old(bm.Bits()), bm.Bits(), added + more)
                && Extends(index, data, index + added, data + more, added + more)
                && |added| == IndexCount(|data + more|) - IndexCount(|data|)
                && CountClear(bm.Bits()) == CountClear(old(bm.Bits())) - |added| - |more|
                && SameBut(old(disk.View()), disk.View(), index + added)
    {
      hide TreeHeld, Took, Extends, CountClear, Unpack, Pad, Chunk, Bitmap.Bits, MoreMarked, Kept;
      ghost var d0, bits0, view0 := disk.View(), bm.Bits(), View();
      ghost var slots := [];
      added := [];
      if whole {
        SlotOfTree(view0, d0, bits0, index, data, i);
        ChunkGrows(data, [], i);
      }
      var block := new Indirect();
      if dataSector[i] == -1 {
        var s := bm.FindAndSet();
        dataSector[i] := s;
        if s != -1 {
          added := [s];
          TookOne(bits0, s);
        } else {
          TookNone(bits0);
        }
      } else {
        block.FetchFrom(disk, dataSector[i]);
        slots := if whole then Chunk(data, i) else [];
        TookNone(bits0);
      }
      ghost var bits1 := bm.Bits();
      assert MoreMarked(bits0, bits1) by { TookMarks(bits0, bits1, added); }
      result, more := block.AllocateBlock(bm, want, slots);
      StillMoreMarked(bits0, bits1, bm.Bits(), more);
      trapped := dataSector[i] == -1;
      if trapped {
        KeptWrite(d0, d0, bits0, bm.Bits(), view0[i], view0[i]);
        return;
      }
      block.WriteBack(disk, dataSector[i]);
      KeptWrite(d0, disk.View(), bits0, bm.Bits(), dataSector[i], view0[i]);
      if whole && result != -1 {
        ChunkGrows(data, more, i);
        assert View() == if added == [] then view0 else view0[i := added[0]];
        TurnKeepsTree(view0, View(), d0, disk.View(), bits0, bits1, bm.Bits(), index, data, added, more, i);
        TookMore(bits0, bits1, bm.Bits(), added, more);
        TookCount(bits0, bm.Bits(), added + more);
      }
    }

    /** Gives back every data sector and every indirect block of the tree, each of them once. */
    method DeallocateBlock(disk: SynchDisk, bm: Bitmap, ghost index: seq<int>, ghost data: seq<int>)
      requires Valid() && disk.Valid() && bm.Valid() && bm.numBits == NUM_SECTORS
      requires TreeHeld(View(), disk.View(), bm.Bits(), index, data)
      modifies bm.words
      ensures Freed(old(bm.Bits()), bm.Bits(), data + index)
    {
      hide TreeHeld, Freed, CountClear, Unpack, Bitmap.Bits, Pad;
      ghost var bits := bm.Bits();
      FreedNone(bits);
      assert Gone(index, data, 0) == [];
      for i := 0 to MAX_BLOCKS_NUM
        invariant Freed(bits, bm.Bits(), Gone(index, data, i))
      {
        var sector := dataSector[i];
        TreeSlot(View(), disk.View(), bits, index, data, i);
        if sector != -1 {
          ghost var bits0 := bm.Bits();
          var block := new Indirect();
          block.FetchFrom(disk, sector);
          StillMarked(View(), disk.View(), bits, bits0, index, data, i);
          block.DeallocateBlock(bm, Chunk(data, i));
          ghost var bits1 := bm.Bits();
          assert bm.Bits()[sector] by { StaysMarked(bits0, bits1, Chunk(data, i), sector); }
          bm.Clear(sector);
          FreedTurn(bits, bits0, bits1, index, data, i);
        }
      }
      TreeGone(View(), disk.View(), bits, index, data);
    }

    /** The data sector that holds byte `num` of the tree. */
    method ByteConvertToSector(disk: SynchDisk, num: int, ghost bits: seq<bool>, ghost index: seq<int>,
                               ghost data: seq<int>)
      returns (r: int)
      requires Valid() && disk.Valid()
      requires TreeHeld(View(), disk.View(), bits, index, data)
      requires 0 <= num && num / SECTOR_SIZE < |data|
      ensures r == data[num / SECTOR_SIZE]
    {
      hide TreeHeld, Pad;
      var store := num / SECTOR_SIZE;
      ExtendsNone(View(), disk.View(), bits, index, data);
      SlotOfTree(View(), disk.View(), bits, index, data, store / MAX_BLOCKS_NUM);
      ChunkGrows(data, [], store / MAX_BLOCKS_NUM);
      var block := new Indirect();
      block.FetchFrom(disk, dataSector[store / MAX_BLOCKS_NUM]);
      assert (store % MAX_BLOCKS_NUM) * SECTOR_SIZE / SECTOR_SIZE == store % MAX_BLOCKS_NUM;
      r := block.ByteConvertToSector((store % MAX_BLOCKS_NUM) * SECTOR_SIZE, Chunk(data, store / MAX_BLOCKS_NUM));
    }
  }

  /** What has been given back before slot `i`. */
  ghost function Gone(index: seq<int>, data: seq<int>, i: nat): seq<int> {
    data[..Min(MAX_BLOCKS_NUM * i, |data|)] + index[..Min(i, |index|)]
  }

  lemma TreeSlot(view: seq<int>, disk: seq<Sector>, bits: seq<bool>, index: seq<int>, data: seq<int>, i: int)
    requires TreeHeld(view, disk, bits, index, data) && 0 <= i < MAX_BLOCKS_NUM
    ensures |view| == MAX_BLOCKS_NUM && |disk| == NUM_SECTORS
    ensures if i < |index| then
              && 0 <= view[i] == index[i] < NUM_SECTORS && MAX_BLOCKS_NUM * i < |data|
              && Words(disk[view[i]]) == Pad(Chunk(data, i)) && -1 !in Chunk(data, i)
            else view[i] == -1 && Gone(index, data, i) == Gone(index, data, i + 1)
  {
    if MAX_BLOCKS_NUM * i <= |data| {
      SlotOfTree(view, disk, bits, index, data, i);
    }
  }

  lemma TreeGone(view: seq<int>, disk: seq<Sector>, bits: seq<bool>, index: seq<int>, data: seq<int>)
    requires TreeHeld(view, disk, bits, index, data)
    ensures Gone(index, data, MAX_BLOCKS_NUM) == data + index
  {
    assert data[..|data|] == data && index[..|index|] == index;
  }

  /** Before block `i` is given back, its chunk and its own sector are marked and apart. */
  lemma StillMarked(view: seq<int>, disk: seq<Sector>, bits: seq<bool>, bits0: seq<bool>,
                    index: seq<int>, data: seq<int>, i: int)
    requires TreeHeld(view, disk, bits, index, data)
    requires 0 <= i < |index| && MAX_BLOCKS_NUM * i <= |data|
    requires Freed(bits, bits0, Gone(index, data, i))
    ensures Distinct(Chunk(data, i)) && AllMarked(bits0, Chunk(data, i))
    ensures |bits0| == |bits| && 0 <= index[i] < |bits0| && bits0[index[i]] && index[i] !in Chunk(data, i)
  {
    forall x | x in Chunk(data, i)
      ensures x in data && x !in Gone(index, data, i)
    {
      var k :| 0 <= k < |Chunk(data, i)| && Chunk(data, i)[k] == x;
      assert data[MAX_BLOCKS_NUM * i + k] == x;
      assert forall j :: 0 <= j < i ==> index[j] in index;
    }
    assert index[i] in index;
    assert forall j :: 0 <= j < MAX_BLOCKS_NUM * i ==> data[j] in data;
  }

  lemma FreedTurn(bits: seq<bool>, bits0: seq<bool>, bits1: seq<bool>, index: seq<int>, data: seq<int>, i: int)
    requires 0 <= i < |index| && MAX_BLOCKS_NUM * i <= |data|
    requires Freed(bits, bits0, Gone(index, data, i)) && Freed(bits0, bits1, Chunk(data, i))
    requires 0 <= index[i] < |bits1|
    ensures Freed(bits, bits1[index[i] := false], Gone(index, data, i + 1))
  {
    var i' := i + 1;
    assert data[..Min(MAX_BLOCKS_NUM * i', |data|)] == data[..MAX_BLOCKS_NUM * i] + Chunk(data, i);
    assert index[..i'] == index[..i] + [index[i]];
    forall x
      ensures x in Gone(index, data, i') <==> x in Gone(index, data, i) || x in Chunk(data, i) || x == index[i]
    {
    }
  }

  lemma StaysMarked(before: seq<bool>, after: seq<bool>, gone: seq<int>, s: int)
    requires Freed(before, after, gone) && 0 <= s < |before| && before[s] && s !in gone
    ensures s < |after| && after[s]
  {
  }
}
