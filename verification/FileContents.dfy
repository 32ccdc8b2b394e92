/** A file as a flat sequence of bytes, and what writing some of its blocks does to it. */
module FileContents {
  import opened Sectors
  import opened Bitmaps
  import opened Blocks
  import opened FileHeaders

  /** The byte at `i` of a file with data sectors `data`. */
  ghost function ByteIn(disk: seq<Sector>, data: seq<int>, i: int): Byte
    requires 0 <= i < SECTOR_SIZE * |data|
    requires forall k :: 0 <= k < |data| ==> 0 <= data[k] < |disk|
  {
    disk[data[i / SECTOR_SIZE]][i % SECTOR_SIZE]
  }

  lemma BlockByte(disk: seq<Sector>, data: seq<int>, b: int, o: int)
    requires 0 <= b < |data| && 0 <= o < SECTOR_SIZE
    requires forall k :: 0 <= k < |data| ==> 0 <= data[k] < |disk|
    ensures ByteIn(disk, data, SECTOR_SIZE * b + o) == disk[data[b]][o]
  {
  }

  ghost predicate Readable(disk: seq<Sector>, f: File) {
    && 0 <= f.length <= SECTOR_SIZE * |f.data|
    && forall k :: 0 <= k < |f.data| ==> 0 <= f.data[k] < |disk|
  }

  /** The file as a flat sequence of bytes. */
  ghost function Content(disk: seq<Sector>, f: File): (bs: seq<Byte>)
    requires Readable(disk, f)
    ensures |bs| == f.length
  {
    seq(f.length, i requires 0 <= i < f.length => ByteIn(disk, f.data, i))
  }

  /** `m` bytes may be moved: no more than asked for, and none behind the end of the file. */
  predicate Allowed(m: int, numBytes: int, position: int, length: int) {
    0 < m <= numBytes && position + m <= length
  }

  /** A transfer of `n` bytes is the longest possible. */
  ghost predicate Longest(n: int, numBytes: int, position: int, length: int) {
    && 0 <= n && (n > 0 ==> Allowed(n, numBytes, position, length))
    && forall m :: Allowed(m, numBytes, position, length) ==> m <= n
  }

  /** How many of the requested bytes lie in a file of this length. */
  function Clamp(length: int, numBytes: int, position: int): (n: int)
    requires numBytes <= 0 || position >= 0
    ensures 0 <= n && (n == 0 || (0 <= position && position + n <= length && n <= numBytes))
    ensures Longest(n, numBytes, position, length)
  {
    if numBytes <= 0 || position >= length then 0 else Min(numBytes, length - position)
  }

  /** `bs` with the bytes from `at` on replaced by `part`. */
  function Splice(bs: seq<Byte>, at: int, part: seq<Byte>): (r: seq<Byte>)
    requires 0 <= at && at + |part| <= |bs|
    ensures |r| == |bs|
  {
    bs[..at] + part + bs[at + |part|..]
  }

  lemma SpliceAt(bs: seq<Byte>, at: int, part: seq<Byte>, k: int)
    requires 0 <= at && at + |part| <= |bs| && 0 <= k < |bs|
    ensures Splice(bs, at, part)[k] == if at <= k < at + |part| then part[k - at] else bs[k]
  {
  }

  lemma IsSplice(before: seq<Byte>, after: seq<Byte>, at: int, part: seq<Byte>)
    requires 0 <= at && at + |part| <= |before| && |after| == |before|
    requires forall k :: 0 <= k < |before| ==>
               after[k] == if at <= k < at + |part| then part[k - at] else before[k]
    ensures after == Splice(before, at, part)
  {
  }

  lemma HeldIsReadable(slots: seq<int>, numBytes: int, disk: seq<Sector>, bits: seq<bool>, f: File)
    requires FileHeld(slots, numBytes, disk, bits, f)
    ensures Readable(disk, f) && numBytes == f.length && Distinct(f.data) && |disk| == NUM_SECTORS
    ensures 0 <= numBytes <= SECTOR_SIZE * MAX_TREE
  {
  }

  /** Writing data sectors leaves the index sectors, and so the file, in order. */
  lemma DataWriteKeepsFile(slots: seq<int>, numBytes: int, d0: seq<Sector>, d1: seq<Sector>, bits: seq<bool>, f: File)
    requires FileHeld(slots, numBytes, d0, bits, f) && SameBut(d0, d1, f.data)
    ensures FileHeld(slots, numBytes, d1, bits, f)
  {
    if f.data != [] {
      forall j | 0 <= j < |f.index|
        ensures Words(d1[f.index[j]]) == Pad(Chunk(f.data, j))
      {
        assert f.index[j] in f.index;
      }
    }
  }

  /** A buffer over blocks `first..` of a file agrees, as far as the file goes, with its content
      after `part` is written at `position`. */
  ghost predicate Prepared(disk: seq<Sector>, f: File, first: int, buf: seq<Byte>, position: int, part: seq<Byte>)
    requires Readable(disk, f) && first >= 0
  {
    forall k :: 0 <= k < |buf| && SECTOR_SIZE * first + k < f.length ==>
      buf[k] == if position <= SECTOR_SIZE * first + k < position + |part| then part[SECTOR_SIZE * first + k - position]
                else ByteIn(disk, f.data, SECTOR_SIZE * first + k)
  }

  /** The bytes of block `b`, up to the end of the file. */
  ghost function BlockPart(disk: seq<Sector>, f: File, b: int): seq<Byte>
    requires Readable(disk, f) && 0 <= b && SECTOR_SIZE * b < f.length
  {
    Content(disk, f)[SECTOR_SIZE * b..SECTOR_SIZE * b + Clamp(f.length, SECTOR_SIZE, SECTOR_SIZE * b)]
  }

  lemma BlockPartAt(disk: seq<Sector>, f: File, b: int)
    requires Readable(disk, f) && 0 <= b && SECTOR_SIZE * b < f.length
    ensures |BlockPart(disk, f, b)| == Min(SECTOR_SIZE, f.length - SECTOR_SIZE * b)
    ensures forall o :: 0 <= o < |BlockPart(disk, f, b)| ==>
              BlockPart(disk, f, b)[o] == ByteIn(disk, f.data, SECTOR_SIZE * b + o)
  {
  }

  /** Reading the first block when the write starts inside it, and the last one when the write ends
      inside it and it has not been read yet, is enough: whatever the buffer held before, with the
      new bytes copied in it is prepared for writing. */
  lemma EdgesSuffice(d0: seq<Sector>, f: File, first: int, last: int, position: int, part: seq<Byte>,
                     b0: seq<Byte>, b1: seq<Byte>, b2: seq<Byte>, b3: seq<Byte>)
    requires Readable(d0, f) && |part| > 0 && 0 <= position && position + |part| <= f.length
    requires first == position / SECTOR_SIZE && last == (position + |part| - 1) / SECTOR_SIZE
    requires |b0| == SECTOR_SIZE * (last + 1 - first)
    requires b1 == if position == SECTOR_SIZE * first then b0 else Splice(b0, 0, BlockPart(d0, f, first))
    requires b2 == if position + |part| != SECTOR_SIZE * (last + 1) &&
             (first != last || position == SECTOR_SIZE * first)
                   then Splice(b1, SECTOR_SIZE * (last - first), BlockPart(d0, f, last)) else b1
    requires b3 == Splice(b2, position - SECTOR_SIZE * first, part)
    ensures Prepared(d0, f, first, b3, position, part)
  {
    hide Splice, BlockPart, ByteIn, Content;
    forall k | 0 <= k < |b3| && SECTOR_SIZE * first + k < f.length
      ensures b3[k] == if position <= SECTOR_SIZE * first + k < position + |part|
                       then part[SECTOR_SIZE * first + k - position]
                       else ByteIn(d0, f.data, SECTOR_SIZE * first + k)
    {
      SpliceAt(b2, position - SECTOR_SIZE * first, part, k);
      BlockPartAt(d0, f, first);
      BlockPartAt(d0, f, last);
      if position != SECTOR_SIZE * first {
        SpliceAt(b0, 0, BlockPart(d0, f, first), k);
      }
      if position + |part| != SECTOR_SIZE * (last + 1) && (first != last || position == SECTOR_SIZE * first) {
        SpliceAt(b1, SECTOR_SIZE * (last - first), BlockPart(d0, f, last), k);
      }
    }
  }

  lemma NothingWritten(d0: seq<Sector>, data: seq<int>, first: int, buf: seq<Byte>)
    requires forall k :: 0 <= k < |data| ==> 0 <= data[k] < |d0|
    requires 0 <= first <= |data|
    ensures BlocksWritten(d0, d0, data, first, first, buf)
  {
  }

  /** Blocks `first..i` of the file have been written from the buffer, and nothing else has. */
  ghost predicate BlocksWritten(d0: seq<Sector>, d1: seq<Sector>, data: seq<int>, first: int, i: int, buf: seq<Byte>)
    requires forall k :: 0 <= k < |data| ==> 0 <= data[k] < |d0|
    requires 0 <= first <= i <= |data| && SECTOR_SIZE * (i - first) <= |buf|
  {
    && SameBut(d0, d1, data[first..i])
    && forall b :: first <= b < i ==>
         d1[data[b]] == buf[SECTOR_SIZE * (b - first)..SECTOR_SIZE * (b - first) + SECTOR_SIZE]
  }

  lemma WriteBlock(d0: seq<Sector>, d1: seq<Sector>, data: seq<int>, first: int, i: int, buf: seq<Byte>)
    requires forall k :: 0 <= k < |data| ==> 0 <= data[k] < |d0|
    requires 0 <= first <= i < |data| && SECTOR_SIZE * (i + 1 - first) <= |buf| && Distinct(data)
    requires BlocksWritten(d0, d1, data, first, i, buf)
    ensures BlocksWritten(d0, d1[data[i] := buf[SECTOR_SIZE * (i - first)..SECTOR_SIZE * (i - first) + SECTOR_SIZE]],
                          data, first, i + 1, buf)
  {
    assert data[first..i + 1] == data[first..i] + [data[i]];
  }

  /** Once all the blocks of the buffer are written the content has changed in one place only. */
  lemma WrittenContent(d0: seq<Sector>, d1: seq<Sector>, f: File, first: int, last: int, buf: seq<Byte>,
                       position: int, part: seq<Byte>)
    requires Readable(d0, f) && Distinct(f.data) && 0 <= first <= last < |f.data|
    requires |buf| == SECTOR_SIZE * (last + 1 - first)
    requires BlocksWritten(d0, d1, f.data, first, last + 1, buf) && Prepared(d0, f, first, buf, position, part)
    requires SECTOR_SIZE * first <= position && position + |part| <= SECTOR_SIZE * (last + 1)
    requires position + |part| <= f.length
    ensures Readable(d1, f) && Content(d1, f) == Splice(Content(d0, f), position, part)
  {
    hide Splice, BlocksWritten, ByteIn, Prepared;
    assert |d1| == |d0| by { WrittenByte(d0, d1, f.data, first, last + 1, buf, SECTOR_SIZE * first); }
    forall i | 0 <= i < f.length
      ensures Content(d1, f)[i] == Splice(Content(d0, f), position, part)[i]
    {
      SpliceAt(Content(d0, f), position, part, i);
      WrittenByte(d0, d1, f.data, first, last + 1, buf, i);
      if SECTOR_SIZE * first <= i < SECTOR_SIZE * (last + 1) {
        PreparedAt(d0, f, first, buf, position, part, i - SECTOR_SIZE * first);
      }
    }
  }

  lemma PreparedAt(disk: seq<Sector>, f: File, first: int, buf: seq<Byte>, position: int, part: seq<Byte>, k: int)
    requires Readable(disk, f) && first >= 0 && Prepared(disk, f, first, buf, position, part)
    requires 0 <= k < |buf| && SECTOR_SIZE * first + k < f.length
    ensures buf[k] == if position <= SECTOR_SIZE * first + k < position + |part|
                      then part[SECTOR_SIZE * first + k - position]
                      else ByteIn(disk, f.data, SECTOR_SIZE * first + k)
  {
  }

  lemma WrittenElsewhere(d0: seq<Sector>, d1: seq<Sector>, data: seq<int>, first: int, i: int, buf: seq<Byte>)
    requires forall k :: 0 <= k < |data| ==> 0 <= data[k] < |d0|
    requires 0 <= first <= i <= |data| && SECTOR_SIZE * (i - first) <= |buf| && Distinct(data)
    requires BlocksWritten(d0, d1, data, first, i, buf)
    ensures SameBut(d0, d1, data)
    ensures forall b :: 0 <= b < first || i <= b < |data| ==> d1[data[b]] == d0[data[b]]
  {
    forall b | 0 <= b < first || i <= b < |data|
      ensures d1[data[b]] == d0[data[b]]
    {
      assert data[b] !in data[first..i];
    }
    assert forall s :: s in data[first..i] ==> s in data;
  }

  /** A byte of the file after its blocks `first..end` have been written from the buffer. */
  lemma WrittenByte(d0: seq<Sector>, d1: seq<Sector>, data: seq<int>, first: int, end: int, buf: seq<Byte>, i: int)
    requires forall k :: 0 <= k < |data| ==> 0 <= data[k] < |d0|
    requires 0 <= first < end <= |data| && Distinct(data)
    requires |buf| == SECTOR_SIZE * (end - first)
    requires BlocksWritten(d0, d1, data, first, end, buf) && 0 <= i < SECTOR_SIZE * |data|
    ensures |d1| == |d0|
    ensures ByteIn(d1, data, i) ==
              if SECTOR_SIZE * first <= i < SECTOR_SIZE * end then buf[i - SECTOR_SIZE * first] else ByteIn(d0, data, i)
  {
    var b, o := i / SECTOR_SIZE, i % SECTOR_SIZE;
    if first <= b < end {
      assert i - SECTOR_SIZE * first == SECTOR_SIZE * (b - first) + o;
      assert d1[data[b]] == buf[SECTOR_SIZE * (b - first)..SECTOR_SIZE * (b - first) + SECTOR_SIZE];
    } else {
      assert data[b] !in data[first..end];
    }
  }
}
