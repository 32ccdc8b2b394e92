/** The disk as the file system sees it (machine/disk.h, filesys/synchdisk.cc): an array of
    128-byte sectors read and written whole, and the little-endian layout of the 32 words that a
    header, an index block or a piece of the free map keeps in one sector. */
module Sectors {

  const SECTOR_SIZE := 128
  const NUM_SECTORS := 1024
  const WORDS_PER_SECTOR := 32

  type Byte = x: int | 0 <= x < 256
  type Word = x: int | -0x8000_0000 <= x < 0x8000_0000
  type Sector = s: seq<Byte> | |s| == SECTOR_SIZE witness seq(SECTOR_SIZE, _ => 0)

  function DivRoundUp(n: int, s: int): int
    requires n >= 0 && s > 0
  {
    n / s + if n % s > 0 then 1 else 0
  }

  /** So many blocks of `s` bytes hold `n` bytes, and no fewer do. */
  lemma FewestBlocks(n: int, s: int, k: int)
    requires n >= 0 && s > 0
    ensures n <= DivRoundUp(n, s) * s
    ensures n <= k * s ==> DivRoundUp(n, s) <= k
  {
    var q, r := n / s, n % s;
    assert n == s * q + r;
    if k < q {
      Scaled(k + 1, q, s);
    } else if k == q && r > 0 {
      assert k * s == s * q;
    }
  }

  lemma Scaled(a: int, b: int, s: int)
    requires a <= b && s > 0
    ensures a * s <= b * s
  {
  }

  function Min(a: int, b: int): int {
    if a < b then a else b
  }

  function Abs(x: int): nat { if x < 0 then -x else x }

  // ---------------------------------------------------------------- words and bytes

  function Unsigned(w: Word): (u: int)
    ensures 0 <= u < 0x1_0000_0000
  {
    if w < 0 then w + 0x1_0000_0000 else w
  }

  function Signed(u: int): Word
    requires 0 <= u < 0x1_0000_0000
  {
    if u < 0x8000_0000 then u else u - 0x1_0000_0000
  }

  /** Byte `k` of a word, lowest first. */
  function ByteOf(w: Word, k: int): Byte
    requires 0 <= k < 4
  {
    var u := Unsigned(w);
    if k == 0 then u % 256
    else if k == 1 then u / 256 % 256
    else if k == 2 then u / 65536 % 256
    else u / 16777216
  }

  function WordOf(b0: Byte, b1: Byte, b2: Byte, b3: Byte): Word {
    Signed(b0 + 256 * b1 + 65536 * b2 + 16777216 * b3)
  }

  lemma WordOfBytes(w: Word)
    ensures WordOf(ByteOf(w, 0), ByteOf(w, 1), ByteOf(w, 2), ByteOf(w, 3)) == w
  {
    var u := Unsigned(w);
    assert u / 65536 == u / 256 / 256 && u / 16777216 == u / 65536 / 256;
  }

  function EncodeWords(ws: seq<Word>): (bs: seq<Byte>)
    ensures |bs| == 4 * |ws|
  {
    seq(4 * |ws|, i requires 0 <= i < 4 * |ws| => ByteOf(ws[i / 4], i % 4))
  }

  function DecodeWords(bs: seq<Byte>): (ws: seq<Word>)
    requires |bs| % 4 == 0
    ensures |ws| == |bs| / 4
  {
    seq(|bs| / 4, i requires 0 <= i < |bs| / 4 => WordOf(bs[4 * i], bs[4 * i + 1], bs[4 * i + 2], bs[4 * i + 3]))
  }

  lemma EncodeAt(ws: seq<Word>, i: int)
    requires 0 <= i < |ws|
    ensures EncodeWords(ws)[4 * i] == ByteOf(ws[i], 0)
    ensures EncodeWords(ws)[4 * i + 1] == ByteOf(ws[i], 1)
    ensures EncodeWords(ws)[4 * i + 2] == ByteOf(ws[i], 2)
    ensures EncodeWords(ws)[4 * i + 3] == ByteOf(ws[i], 3)
  {
    assert (4 * i + 1) / 4 == i && (4 * i + 2) / 4 == i && (4 * i + 3) / 4 == i;
  }

  /** What is written as words is read back as the same words. */
  lemma DecodeOfEncode(ws: seq<Word>)
    ensures DecodeWords(EncodeWords(ws)) == ws
  {
    hide ByteOf, WordOf, EncodeWords;
    forall i | 0 <= i < |ws|
      ensures DecodeWords(EncodeWords(ws))[i] == ws[i]
    {
      EncodeAt(ws, i);
      WordOfBytes(ws[i]);
    }
  }

  /** The word stored at byte `at`. */
  function WordAt(bs: seq<Byte>, at: int): Word
    requires 0 <= at && at + 4 <= |bs|
  {
    WordOf(bs[at], bs[at + 1], bs[at + 2], bs[at + 3])
  }

  /** The 32 words of a sector. */
  function Words(s: Sector): (ws: seq<Word>)
    ensures |ws| == WORDS_PER_SECTOR
  {
    DecodeWords(s)
  }

  // ---------------------------------------------------------------- the disk

  class SynchDisk {
    const sectors: array<Sector>

    ghost predicate Valid() {
      sectors.Length == NUM_SECTORS
    }

    ghost function View(): seq<Sector>
      reads sectors
    {
      sectors[..]
    }

    constructor ()
      ensures Valid() && fresh(sectors)
    {
      sectors := new Sector[NUM_SECTORS];
    }

    /** Copies sector `n` to `buf[off..]`. */
    method ReadSector(n: int, buf: array<Byte>, off: nat)
      requires Valid() && 0 <= n < NUM_SECTORS && off + SECTOR_SIZE <= buf.Length
      modifies buf
      ensures forall i :: 0 <= i < SECTOR_SIZE ==> buf[off + i] == sectors[n][i]
      ensures buf[..off] == old(buf[..off])
      ensures buf[off + SECTOR_SIZE..] == old(buf[off + SECTOR_SIZE..])
    {
      var data := sectors[n];
      forall i | 0 <= i < SECTOR_SIZE {
        buf[off + i] := data[i];
      }
    }

    method WriteSector(n: int, buf: array<Byte>, off: nat)
      requires Valid() && 0 <= n < NUM_SECTORS && off + SECTOR_SIZE <= buf.Length
      modifies sectors
      ensures View() == old(View())[n := buf[off..off + SECTOR_SIZE]]
    {
      sectors[n] := buf[off..off + SECTOR_SIZE];
    }

    /** Reads sector `n` into an object that consists of 32 words. */
    method ReadWords(n: int) returns (ws: seq<Word>)
      requires Valid() && 0 <= n < NUM_SECTORS
      ensures ws == Words(sectors[n])
    {
      ws := DecodeWords(sectors[n]);
    }

    /** Writes an object that consists of 32 words to sector `n`. */
    method WriteWords(n: int, ws: seq<Word>)
      requires Valid() && 0 <= n < NUM_SECTORS && |ws| == WORDS_PER_SECTOR
      modifies sectors
      ensures |View()| == |old(View())| && Words(View()[n]) == ws
      ensures forall s :: 0 <= s < NUM_SECTORS && s != n ==> View()[s] == old(View()[s])
    {
      sectors[n] := EncodeWords(ws);
      DecodeOfEncode(ws);
    }
  }
}
