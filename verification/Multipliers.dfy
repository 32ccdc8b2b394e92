/** The multiplier of the simulated processor (machine/mipssim.cc, Mult): 32-bit operands to a
    64-bit product by shifting and adding, one bit of `a` at a time. */
module Multipliers {
  import opened Sectors
  import opened Bitmaps

  const WORD := 0x1_0000_0000

  /** Two's complement, wrapping: the most negative word is its own negation. */
  function Negate(w: Word): Word {
    Signed((WORD - Unsigned(w)) % WORD)
  }

  function Add(x: UInt32, y: UInt32): UInt32 { (x + y) % WORD }

  function Complement(x: UInt32): UInt32 { WORD - 1 - x }

  function Double(hi: nat, lo: nat): nat { hi * WORD + lo }

  /** The two result words read as one signed number. */
  function SignedDouble(hi: Word, lo: Word): int { hi * WORD + Unsigned(lo) }

  /** Carry out of the low words shows as a low sum smaller than what was added. */
  lemma AddWithCarry(hi: UInt32, lo: UInt32, bHi: UInt32, bLo: UInt32)
    requires Double(hi, lo) + Double(bHi, bLo) < WORD * WORD
    ensures var sum := Add(lo, bLo);
      Double(Add(if sum < bLo then Add(hi, 1) else hi, bHi), sum) == Double(hi, lo) + Double(bHi, bLo)
  {
    assert hi + bHi < WORD;
    if lo + bLo >= WORD {
      assert (lo + bLo) % WORD == lo + bLo - WORD;
      assert hi + bHi + 1 < WORD;
    }
  }

  /** Shifting the pair left by one, the top bit of the low word moving over. */
  lemma ShiftLeft(bHi: UInt32, bLo: UInt32)
    requires 2 * Double(bHi, bLo) < WORD * WORD
    ensures Double((2 * bHi) % WORD + (if bLo >= 0x8000_0000 then 1 else 0), (2 * bLo) % WORD) == 2 * Double(bHi, bLo)
    ensures (2 * bHi) % WORD + (if bLo >= 0x8000_0000 then 1 else 0) < WORD
  {
    assert 2 * bHi < WORD;
  }

  lemma {:induction false} Pow2Grows(m: nat, n: nat)
    requires m <= n
    ensures Pow2(m) <= Pow2(n)
  {
    if m < n {
      Pow2Grows(m, n - 1);
    }
  }

  /** The two's complement of the pair: complement both words and add one, with its carry. */
  lemma NegatePair(hi: UInt32, lo: UInt32)
    requires Double(hi, lo) > 0
    ensures var nlo := Add(Complement(lo), 1);
      Double(if nlo == 0 then Add(Complement(hi), 1) else Complement(hi), nlo) == WORD * WORD - Double(hi, lo)
  {
  }

  lemma NegateIsAbs(w: Word)
    requires w < 0
    ensures Unsigned(Negate(w)) == Abs(w)
  {
  }

  /** The magnitude the loop multiplies by, and the sign to restore. */
  method Magnitude(x: Word, signedArith: bool) returns (m: Word, flipped: bool)
    ensures flipped <==> signedArith && x < 0
    ensures Unsigned(m) == if signedArith then Abs(x) else Unsigned(x)
  {
    m, flipped := x, false;
    if signedArith && x < 0 {
      NegateIsAbs(x);
      m, flipped := Negate(x), true;
    }
  }

  /** Before round `i`: what has been added and what the bits still to come, `rem`, will add make the
      product. `a` holds those bits below the ones its sign has shifted in. */
  ghost predicate Partial(A: nat, B: nat, i: nat, neg: bool, a: Word, rem: nat, cur: nat, sum: nat) {
    && i <= 32 && A < WORD && B < WORD
    && cur == B * Pow2(i)
    && rem < Pow2(32 - i) && a == rem - (if neg then Pow2(32 - i) else 0)
    && sum + rem * cur == A * B
  }

  lemma PartialStart(a: Word, B: nat)
    requires B < WORD
    ensures Partial(Unsigned(a), B, 0, a < 0, a, Unsigned(a), B, 0)
  {
    Pow2Of32();
  }

  lemma PartialBit(A: nat, B: nat, i: nat, neg: bool, a: Word, rem: nat, cur: nat, sum: nat)
    requires Partial(A, B, i, neg, a, rem, cur, sum) && i < 32
    ensures a % 2 == rem % 2
    ensures rem / 2 < Pow2(32 - (i + 1)) && a / 2 == rem / 2 - (if neg then Pow2(32 - (i + 1)) else 0)
  {
    Halved(a, rem, Pow2(32 - i), Pow2(32 - (i + 1)), neg);
  }

  lemma Halved(a: int, rem: nat, top: nat, half: nat, neg: bool)
    requires top == 2 * half && rem < top && a == rem - (if neg then top else 0)
    ensures a % 2 == rem % 2 && rem / 2 < half && a / 2 == rem / 2 - (if neg then half else 0)
  {
  }

  /** Neither the sum nor the shifted operand leaves 64 bits. */
  lemma PartialFits(A: nat, B: nat, i: nat, neg: bool, a: Word, rem: nat, cur: nat, sum: nat)
    requires Partial(A, B, i, neg, a, rem, cur, sum) && i < 32
    ensures rem > 0 ==> sum + cur < WORD * WORD
    ensures 2 * cur < WORD * WORD
  {
    Product(A, B);
    if rem > 0 {
      AtLeastOnce(rem, cur);
    }
    Pow2Grows(i + 1, 32);
    Pow2Of32();
    Scaled(B, Pow2(i));
    Product(B, Pow2(i + 1) - 1);
    assert B * Pow2(i + 1) == B * (Pow2(i + 1) - 1) + B;
  }

  lemma Product(x: nat, y: nat)
    requires x < WORD && y < WORD
    ensures x * y + x < WORD * WORD
  {
    MulMono(x, y + 1, 0x1_0000_0000);
    assert x * (y + 1) == x * y + x;
  }

  lemma MulMono(x: nat, y: nat, z: nat)
    requires y <= z
    ensures x * y <= x * z
  {
    assert x * (z - y) >= 0;
    assert x * (z - y) == x * z - x * y;
  }

  lemma AtLeastOnce(rem: nat, cur: nat)
    requires rem > 0
    ensures rem * cur >= cur
  {
    assert (rem - 1) * cur >= 0;
  }

  lemma Scaled(B: nat, p: nat)
    ensures 2 * (B * p) == B * (2 * p)
  {
  }

  lemma PartialStep(A: nat, B: nat, i: nat, neg: bool, a: Word, rem: nat, cur: nat, sum: nat)
    requires Partial(A, B, i, neg, a, rem, cur, sum) && i < 32
    ensures Partial(A, B, i + 1, neg, a / 2, rem / 2, 2 * cur, if a % 2 == 1 then sum + cur else sum)
  {
    PartialBit(A, B, i, neg, a, rem, cur, sum);
    Scaled(B, Pow2(i));
    Schoolbook(rem, cur);
  }

  lemma Schoolbook(rem: nat, cur: nat)
    ensures rem * cur == (rem / 2) * (2 * cur) + if rem % 2 == 1 then cur else 0
  {
    assert rem == 2 * (rem / 2) + rem % 2;
    assert (2 * (rem / 2)) * cur == (rem / 2) * (2 * cur);
    if rem % 2 == 1 {
      assert (2 * (rem / 2) + 1) * cur == (2 * (rem / 2)) * cur + cur;
    }
  }

  /** Only one bit was left, and it has been added. */
  lemma PartialLast(A: nat, B: nat, i: nat, neg: bool, a: Word, rem: nat, cur: nat, sum: nat)
    requires Partial(A, B, i, neg, a, rem, cur, sum) && i < 32 && a % 2 == 1 && Unsigned(a) / 2 == 0
    ensures sum + cur == A * B
  {
    assert a == 1 && rem == 1;
  }

  lemma PartialEnd(A: nat, B: nat, neg: bool, a: Word, rem: nat, cur: nat, sum: nat)
    requires Partial(A, B, 32, neg, a, rem, cur, sum)
    ensures sum == A * B
  {
    assert rem == 0;
  }

  /** The main loop. A negative `a` shifts its sign in from the left and so never runs out of bits:
      then all 32 rounds are made. */
  method MultiplyUnsigned(multiplier: Word, multiplicand: Word) returns (hi: UInt32, lo: UInt32)
    ensures Double(hi, lo) == Unsigned(multiplier) * Unsigned(multiplicand)
  {
    hide Partial, Double, Unsigned, Add;
    ghost var A, B, neg := Unsigned(multiplier), Unsigned(multiplicand), multiplier < 0;
    var a: Word := multiplier;
    var bHi: UInt32, bLo: UInt32 := 0, Unsigned(multiplicand);
    hi, lo := 0, 0;
    ghost var rem: nat := A;
    PartialStart(a, B);
    DoubleOfLow(bLo);
    DoubleOfLow(0);
    for i := 0 to 32
      invariant Partial(A, B, i, neg, a, rem, Double(bHi, bLo), Double(hi, lo))
    {
      ghost var cur, sum := Double(bHi, bLo), Double(hi, lo);
      PartialBit(A, B, i, neg, a, rem, cur, sum);
      PartialFits(A, B, i, neg, a, rem, cur, sum);
      PartialStep(A, B, i, neg, a, rem, cur, sum);
      if a % 2 == 1 {
        AddWithCarry(hi, lo, bHi, bLo);
        lo := Add(lo, bLo);
        if lo < bLo {
          hi := Add(hi, 1);
        }
        hi := Add(hi, bHi);
        if Unsigned(a) / 2 == 0 {
          PartialLast(A, B, i, neg, a, rem, cur, sum);
          return;
        }
      }
      ShiftLeft(bHi, bLo);
      bHi, bLo := (2 * bHi) % WORD + (if bLo >= 0x8000_0000 then 1 else 0), (2 * bLo) % WORD;
      a, rem := a / 2, rem / 2;
    }
    PartialEnd(A, B, neg, a, rem, Double(bHi, bLo), Double(hi, lo));
  }

  lemma DoubleOfLow(lo: nat)
    ensures Double(0, lo) == lo
  {
  }

  /** The low 64 bits of the product, in two words. */
  function ProductWords(a: Word, b: Word, signedArith: bool): (Word, Word) {
    var p := if signedArith then a * b else Unsigned(a) * Unsigned(b);
    (Signed(p / WORD % WORD), Signed(p % WORD))
  }

  lemma WordsOfDouble(hi: Word, lo: Word)
    ensures Signed(SignedDouble(hi, lo) / WORD % WORD) == hi && Signed(SignedDouble(hi, lo) % WORD) == lo
    ensures Signed(Double(Unsigned(hi), Unsigned(lo)) / WORD % WORD) == hi
    ensures Signed(Double(Unsigned(hi), Unsigned(lo)) % WORD) == lo
  {
    TwoWords(hi, Unsigned(lo));
    TwoWords(Unsigned(hi), Unsigned(lo));
  }

  lemma TwoWords(hi: int, lo: UInt32)
    ensures (hi * WORD + lo) / WORD == hi && (hi * WORD + lo) % WORD == lo
  {
  }

  /** Mult is exact: the unsigned product, or the signed one in two's complement, the most negative
      operand included. */
  method Multiply(a: Word, b: Word, signedArith: bool) returns (hi: Word, lo: Word)
    ensures signedArith ==> SignedDouble(hi, lo) == a * b
    ensures !signedArith ==> Double(Unsigned(hi), Unsigned(lo)) == Unsigned(a) * Unsigned(b)
    ensures (hi, lo) == ProductWords(a, b, signedArith)
  {
    if a == 0 || b == 0 {
      WordsOfDouble(0, 0);
      return 0, 0;
    }
    var ma, fa := Magnitude(a, signedArith);
    var mb, fb := Magnitude(b, signedArith);
    var h, l := MultiplyUnsigned(ma, mb);
    SignOfProduct(a, b);
    if fa != fb {
      NegatePair(h, l);
      h, l := Complement(h), Add(Complement(l), 1);
      if l == 0 {
        h := Add(h, 1);
      }
    }
    hi, lo := Signed(h), Signed(l);
    if signedArith {
      AsSigned(h, l, a * b);
    }
    WordsOfDouble(hi, lo);
  }

  lemma SignOfProduct(a: int, b: int)
    requires -0x8000_0000 <= a < 0x8000_0000 && -0x8000_0000 <= b < 0x8000_0000 && a != 0 && b != 0
    ensures 0 < Abs(a) * Abs(b) <= 0x8000_0000 * 0x8000_0000
    ensures a * b == if (a < 0) != (b < 0) then -(Abs(a) * Abs(b)) else Abs(a) * Abs(b)
  {
    var x, y := Abs(a), Abs(b);
    MulMono(x, 1, y);
    MulMono(x, y, 0x8000_0000);
    Signs(a, b);
  }

  lemma Signs(a: int, b: int)
    ensures a * b == if (a < 0) != (b < 0) then -(Abs(a) * Abs(b)) else Abs(a) * Abs(b)
  {
    assert (-a) * (-b) == a * b && (-a) * b == -(a * b) && a * (-b) == -(a * b);
  }

  lemma AsSigned(h: UInt32, l: UInt32, p: int)
    requires -0x8000_0000 * WORD <= p < 0x8000_0000 * WORD
    requires Double(h, l) == if p < 0 then WORD * WORD + p else p
    ensures SignedDouble(Signed(h), Signed(l)) == p
  {
  }

  /** The two words are the product, signed or unsigned. */
  lemma ProductIsExact(a: Word, b: Word, signedArith: bool)
    ensures var p := ProductWords(a, b, signedArith);
      if signedArith then SignedDouble(p.0, p.1) == a * b
      else Double(Unsigned(p.0), Unsigned(p.1)) == Unsigned(a) * Unsigned(b)
  {
    if signedArith {
      SignedSize(a, b);
      SplitInTwo(a * b);
    } else {
      UnsignedSize(Unsigned(a), Unsigned(b));
      SplitInTwo(Unsigned(a) * Unsigned(b));
    }
  }

  lemma SignedSize(a: int, b: int)
    requires -0x8000_0000 <= a < 0x8000_0000 && -0x8000_0000 <= b < 0x8000_0000
    ensures -0x8000_0000 * WORD <= a * b < 0x8000_0000 * WORD
  {
    if a != 0 && b != 0 {
      SignOfProduct(a, b);
    }
  }

  lemma UnsignedSize(x: UInt32, y: UInt32)
    ensures 0 <= x * y < WORD * WORD
  {
    MulMono(x, y, WORD);
  }

  lemma SplitInTwo(p: int)
    ensures var hi, lo := Signed(p / WORD % WORD), Signed(p % WORD);
      && (-0x8000_0000 * WORD <= p < 0x8000_0000 * WORD ==> SignedDouble(hi, lo) == p)
      && (0 <= p < WORD * WORD ==> Double(Unsigned(hi), Unsigned(lo)) == p)
  {
  }
}
