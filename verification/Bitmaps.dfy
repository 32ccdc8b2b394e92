/** The map of free sectors (lib/bitmap.cc): one bit a sector, packed in 32-bit words. Every
    operation is specified on the unpacked sequence of bits. */
module Bitmaps {
  import opened Sectors

  const BITS_IN_WORD := 32

  // ---------------------------------------------------------------- packed words

  type UInt32 = x: int | 0 <= x < 0x1_0000_0000

  function Pow2(n: nat): (p: int)
    ensures p > 0
  {
    if n == 0 then 1 else 2 * Pow2(n - 1)
  }

  /** Bit `k` of a word, the lowest being bit 0: `u & (1 << k)` is not zero. */
  predicate BitOf(u: nat, k: nat) {
    if k == 0 then u % 2 == 1 else BitOf(u / 2, k - 1)
  }

  /** `u | (1 << k)` */
  function OrBit(u: nat, k: nat): nat {
    if k == 0 then u / 2 * 2 + 1 else OrBit(u / 2, k - 1) * 2 + u % 2
  }

  /** `u & ~(1 << k)` */
  function AndNotBit(u: nat, k: nat): nat {
    if k == 0 then u / 2 * 2 else AndNotBit(u / 2, k - 1) * 2 + u % 2
  }

  lemma {:induction false} BitOfOrBit(u: nat, k: nat, j: nat)
    ensures BitOf(OrBit(u, k), j) == (j == k || BitOf(u, j))
  {
    if k > 0 && j > 0 {
      BitOfOrBit(u / 2, k - 1, j - 1);
    }
  }

  lemma {:induction false} BitOfAndNotBit(u: nat, k: nat, j: nat)
    ensures BitOf(AndNotBit(u, k), j) == (j != k && BitOf(u, j))
  {
    if k > 0 && j > 0 {
      BitOfAndNotBit(u / 2, k - 1, j - 1);
    }
  }

  lemma {:induction false} BitWidth(u: nat, k: nat, n: nat)
    requires u < Pow2(n) && k < n
    ensures OrBit(u, k) < Pow2(n) && AndNotBit(u, k) < Pow2(n)
  {
    assert Pow2(n) == 2 * Pow2(n - 1) && u / 2 < Pow2(n - 1);
    if k > 0 {
      BitWidth(u / 2, k - 1, n - 1);
      assert OrBit(u, k) == OrBit(u / 2, k - 1) * 2 + u % 2;
      assert AndNotBit(u, k) == AndNotBit(u / 2, k - 1) * 2 + u % 2;
    }
  }

  lemma Pow2Of32()
    ensures Pow2(32) == 0x1_0000_0000
  {
    assert Pow2(8) == 256;
    assert Pow2(16) == 65536;
    assert Pow2(24) == 16777216;
  }

  /** A word keeps its width when one of its 32 bits is set or cleared. */
  lemma WordWidth(u: UInt32, k: nat)
    requires k < BITS_IN_WORD
    ensures OrBit(u, k) < 0x1_0000_0000 && AndNotBit(u, k) < 0x1_0000_0000
  {
    Pow2Of32();
    BitWidth(u, k, 32);
  }

  lemma {:induction false} NoBits(k: nat)
    ensures !BitOf(0, k)
  {
    if k > 0 {
      NoBits(k - 1);
    }
  }

  /** The `n` bits packed in `words`. */
  function Unpack(words: seq<UInt32>, n: nat): (bits: seq<bool>)
    requires n <= BITS_IN_WORD * |words|
    ensures |bits| == n
  {
    seq(n, i requires 0 <= i < n => BitOf(words[i / BITS_IN_WORD], i % BITS_IN_WORD))
  }

  // ---------------------------------------------------------------- counting and taking bits

  function CountClear(bits: seq<bool>): (n: nat)
    ensures n <= |bits|
  {
    if bits == [] then 0
    else CountClear(bits[..|bits| - 1]) + if bits[|bits| - 1] then 0 else 1
  }

  lemma {:induction false} CountSet(bits: seq<bool>, i: int)
    requires 0 <= i < |bits| && !bits[i]
    ensures CountClear(bits[i := true]) == CountClear(bits) - 1
  {
    var last := |bits| - 1;
    if i == last {
      assert bits[i := true][..last] == bits[..last];
    } else {
      assert bits[i := true][..last] == bits[..last][i := true];
      CountSet(bits[..last], i);
    }
  }

  lemma {:induction false} SomeClear(bits: seq<bool>)
    requires CountClear(bits) > 0
    ensures exists i :: 0 <= i < |bits| && !bits[i]
  {
    var last := |bits| - 1;
    if bits[last] {
      SomeClear(bits[..last]);
      var i :| 0 <= i < last && !bits[..last][i];
      assert !bits[i];
    }
  }

  ghost predicate Distinct(s: seq<int>) {
    forall i, j :: 0 <= i < j < |s| ==> s[i] != s[j]
  }

  /** `after` is `before` with exactly the bits `taken` newly set, each of them once. */
  ghost predicate Took(before: seq<bool>, after: seq<bool>, taken: seq<int>) {
    && |after| == |before|
    && Distinct(taken)
    && (forall s :: s in taken ==> 0 <= s < |before| && !before[s])
    && (forall s :: 0 <= s < |before| ==> after[s] == (before[s] || s in taken))
  }

  lemma TookNone(bits: seq<bool>)
    ensures Took(bits, bits, [])
  {
  }

  lemma TookOne(bits: seq<bool>, s: int)
    requires 0 <= s < |bits| && !bits[s]
    ensures Took(bits, bits[s := true], [s])
  {
  }

  lemma TookMore(b0: seq<bool>, b1: seq<bool>, b2: seq<bool>, s1: seq<int>, s2: seq<int>)
    requires Took(b0, b1, s1) && Took(b1, b2, s2)
    ensures Took(b0, b2, s1 + s2)
  {
    forall i, j | 0 <= i < j < |s1 + s2|
      ensures (s1 + s2)[i] != (s1 + s2)[j]
    {
      assert (s1 + s2)[i] in s1 + s2 && (s1 + s2)[j] in s1 + s2;
      assert i >= |s1| ==> (s1 + s2)[i] == s2[i - |s1|];
      assert j >= |s1| ==> (s1 + s2)[j] == s2[j - |s1|] && s2[j - |s1|] in s2;
    }
  }

  lemma FirstShared(a: seq<int>, b: seq<int>)
    requires |a| > 0 && forall x :: x in a ==> x in b
    ensures a[0] in b
  {
    var x := a[0];
    assert x in a;
  }

  /** The same elements, each once, are as many. */
  lemma {:induction false} DistinctSameLength(a: seq<int>, b: seq<int>)
    requires Distinct(a) && Distinct(b) && forall x :: x in a <==> x in b
    ensures |a| == |b|
    decreases |a|
  {
    if a == [] {
      if |b| > 0 {
        FirstShared(b, a);
        assert false;
      }
    } else {
      FirstShared(a, b);
      var i :| 0 <= i < |b| && b[i] == a[0];
      var a', b' := a[1..], b[..i] + b[i + 1..];
      forall x
        ensures x in a' <==> x in b'
      {
        assert x in a <==> x == a[0] || x in a';
        assert x in b <==> x == b[i] || x in b';
        assert a[0] !in a';
        assert b[i] !in b';
      }
      DistinctSameLength(a', b');
    }
  }

  /** Taking bits lowers the number of clear ones by exactly the number taken. */
  lemma {:induction false} TookCount(before: seq<bool>, after: seq<bool>, taken: seq<int>)
    requires Took(before, after, taken)
    ensures CountClear(after) == CountClear(before) - |taken|
    decreases |taken|
  {
    if taken == [] {
      assert after == before;
    } else {
      var s, rest := taken[0], taken[1..];
      assert s in taken && taken == [s] + rest;
      CountSet(before, s);
      assert s !in rest;
      assert forall x :: x in taken <==> x == s || x in rest;
      assert Took(before[s := true], after, rest);
      TookCount(before[s := true], after, rest);
    }
  }

  /** Distinct clear bits are no more than the clear bits there are. */
  lemma DistinctClear(bits: seq<bool>, taken: seq<int>)
    requires Distinct(taken) && forall s :: s in taken ==> 0 <= s < |bits| && !bits[s]
    ensures |taken| <= CountClear(bits)
  {
    var after := seq(|bits|, s requires 0 <= s < |bits| => bits[s] || s in taken);
    TookCount(bits, after, taken);
  }

  lemma {:induction false} AllClear(n: nat)
    ensures CountClear(seq(n, _ => false)) == n
  {
    if n > 0 {
      assert seq(n, _ => false)[..n - 1] == seq(n - 1, _ => false);
      AllClear(n - 1);
    }
  }

  lemma {:induction false} CountOfFlipped(bits: seq<bool>)
    ensures CountClear(bits) + CountClear(Flipped(bits)) == |bits|
  {
    if bits != [] {
      var last := |bits| - 1;
      assert Flipped(bits)[..last] == Flipped(bits[..last]);
      CountOfFlipped(bits[..last]);
    }
  }

  function Flipped(bits: seq<bool>): seq<bool> {
    seq(|bits|, i requires 0 <= i < |bits| => !bits[i])
  }

  /** Distinct marked bits and the clear bits together fit in the map. */
  lemma DistinctMarked(bits: seq<bool>, marked: seq<int>)
    requires Distinct(marked) && forall s :: s in marked ==> 0 <= s < |bits| && bits[s]
    ensures |marked| + CountClear(bits) <= |bits|
  {
    DistinctClear(Flipped(bits), marked);
    CountOfFlipped(bits);
  }

  // ---------------------------------------------------------------- the persistent form

  function MapWords(words: seq<UInt32>): (ws: seq<Word>)
    ensures |ws| == |words|
  {
    seq(|words|, i requires 0 <= i < |words| => Signed(words[i]))
  }

  function WordsOfMap(ws: seq<Word>): (words: seq<UInt32>)
    ensures |words| == |ws|
  {
    seq(|ws|, i requires 0 <= i < |ws| => Unsigned(ws[i]))
  }

  lemma WordsOfMapWords(words: seq<UInt32>)
    ensures WordsOfMap(MapWords(words)) == words
  {
    forall i | 0 <= i < |words|
      ensures WordsOfMap(MapWords(words))[i] == words[i]
    {
      assert Unsigned(Signed(words[i])) == words[i];
    }
  }

  /** The bits that the contents of the free-map file stand for. */
  function BitsOfFile(content: seq<Byte>): (bits: seq<bool>)
    requires |content| % 4 == 0
    ensures |bits| == 8 * |content|
  {
    Unpack(WordsOfMap(DecodeWords(content)), 8 * |content|)
  }

  /** What `WriteBack` stores: the words of the map, as bytes. */
  function FileOfWords(words: seq<UInt32>): (content: seq<Byte>)
    ensures |content| == 4 * |words|
  {
    EncodeWords(MapWords(words))
  }

  /** A map written to its file is the map read back. */
  lemma BitsOfFileOfWords(words: seq<UInt32>)
    ensures BitsOfFile(FileOfWords(words)) == Unpack(words, 32 * |words|)
  {
    DecodeOfEncode(MapWords(words));
    WordsOfMapWords(words);
  }

  // ---------------------------------------------------------------- the class

  class Bitmap {
    const numBits: int
    const words: array<UInt32>

    ghost predicate Valid() {
      numBits > 0 && words.Length == DivRoundUp(numBits, BITS_IN_WORD)
    }

    ghost function Bits(): (bits: seq<bool>)
      requires Valid()
      reads words
      ensures |bits| == numBits
    {
      Unpack(words[..], numBits)
    }

    constructor (numItems: int)
      requires numItems > 0
      ensures Valid() && fresh(words) && numBits == numItems
      ensures Bits() == seq(numItems, _ => false)
    {
      numBits := numItems;
      words := new UInt32[DivRoundUp(numItems, BITS_IN_WORD)](_ => 0);
      new;
      forall k: nat {
        NoBits(k);
      }
      for i := 0 to numBits
        invariant Bits() == seq(numItems, _ => false)
      {
        Clear(i);
      }
    }

    method Mark(which: int)
      requires Valid() && 0 <= which < numBits
      modifies words
      ensures Bits() == old(Bits())[which := true]
    {
      ghost var before := words[..];
      var w := which / BITS_IN_WORD;
      WordWidth(words[w], which % BITS_IN_WORD);
      words[w] := OrBit(words[w], which % BITS_IN_WORD);
      forall i | 0 <= i < numBits
        ensures Bits()[i] == (i == which || Unpack(before, numBits)[i])
      {
        BitOfOrBit(before[w], which % BITS_IN_WORD, i % BITS_IN_WORD);
      }
    }

    method Clear(which: int)
      requires Valid() && 0 <= which < numBits
      modifies words
      ensures Bits() == old(Bits())[which := false]
    {
      ghost var before := words[..];
      var w := which / BITS_IN_WORD;
      WordWidth(words[w], which % BITS_IN_WORD);
      words[w] := AndNotBit(words[w], which % BITS_IN_WORD);
      forall i | 0 <= i < numBits
        ensures Bits()[i] == (i != which && Unpack(before, numBits)[i])
      {
        BitOfAndNotBit(before[w], which % BITS_IN_WORD, i % BITS_IN_WORD);
      }
    }

    method Test(which: int) returns (r: bool)
      requires Valid() && 0 <= which < numBits
      ensures r == Bits()[which]
    {
      r := BitOf(words[which / BITS_IN_WORD], which % BITS_IN_WORD);
    }

    /** Takes the lowest clear bit, or answers -1 when there is none. */
    method FindAndSet() returns (r: int)
      requires Valid()
      modifies words
      ensures r == -1 <==> CountClear(old(Bits())) == 0
      ensures r == -1 ==> Bits() == old(Bits())
      ensures r != -1 ==> 0 <= r < numBits && !old(Bits())[r] && Bits() == old(Bits())[r := true]
      ensures r != -1 ==> forall i :: 0 <= i < r ==> old(Bits())[i]
      ensures r != -1 ==> CountClear(Bits()) == CountClear(old(Bits())) - 1
    {
      for i := 0 to numBits
        invariant unchanged(words)
        invariant forall k :: 0 <= k < i ==> Bits()[k]
      {
        var inUse := Test(i);
        if !inUse {
          CountSet(Bits(), i);
          Mark(i);
          return i;
        }
      }
      if CountClear(Bits()) > 0 {
        SomeClear(Bits());
      }
      return -1;
    }

    method NumClear() returns (count: int)
      requires Valid()
      ensures count == CountClear(Bits())
    {
      count := 0;
      for i := 0 to numBits
        invariant count == CountClear(Bits()[..i])
      {
        var inUse := Test(i);
        assert Bits()[..i + 1][..i] == Bits()[..i];
        if !inUse {
          count := count + 1;
        }
      }
      assert Bits()[..numBits] == Bits();
    }
  }
}
