/** Arithmetic on 32-bit words as the instructions of the simulated processor do it (machine/mipssim.cc):
    wrapping sums, the tests for overflow, truncating division, operations on bits, and shifts. */
module WordArithmetic {
  import opened Bitmaps
  import Multipliers
  import opened Sectors

  // ---------------------------------------------------------------- arithmetic on words

  /** The low 32 bits of a number, as a signed word. */
  function Wrap(x: int): Word {
    Signed(x % 0x1_0000_0000)
  }

  predicate Fits(x: int) { -0x8000_0000 <= x < 0x8000_0000 }

  /** The test on sign bits in OP_ADD and OP_ADDI. */
  predicate AddOverflows(a: Word, b: Word) {
    (a < 0) == (b < 0) && (b < 0) != (Wrap(a + b) < 0)
  }

  /** The test in OP_SUB. */
  predicate SubOverflows(a: Word, b: Word) {
    (a < 0) != (b < 0) && (a < 0) != (Wrap(a - b) < 0)
  }

  /** The tests on sign bits find exactly the sums and differences that do not fit in a word. */
  lemma OverflowTests(a: int, b: int)
    requires Fits(a) && Fits(b)
    ensures AddOverflows(a, b) <==> !Fits(a + b)
    ensures SubOverflows(a, b) <==> !Fits(a - b)
    ensures Fits(a + b) ==> Wrap(a + b) == a + b
    ensures Fits(a - b) ==> Wrap(a - b) == a - b
  {
    WrapNear(a + b);
    WrapNear(a - b);
  }

  lemma WrapNear(x: int)
    requires -0x1_0000_0000 <= x < 0x1_0000_0000
    ensures Wrap(x) == if x < -0x8000_0000 then x + 0x1_0000_0000 else if x < 0x8000_0000 then x else x - 0x1_0000_0000
  {
  }

  // ---------------------------------------------------------------- bit by bit

  /** Bit `k` of a word, the lowest being bit 0. */
  predicate WordBit(w: Word, k: nat) { BitOf(Unsigned(w), k) }

  /** The number whose lowest `n` bits are those of `u` and `v` put together by `f`. */
  function Zip(f: (bool, bool) -> bool, u: nat, v: nat, n: nat): (z: nat)
    ensures z < Pow2(n)
  {
    if n == 0 then 0
    else 2 * Zip(f, u / 2, v / 2, n - 1) + if f(u % 2 == 1, v % 2 == 1) then 1 else 0
  }

  function ZipWords(f: (bool, bool) -> bool, a: Word, b: Word): Word {
    Pow2Of32();
    Signed(Zip(f, Unsigned(a), Unsigned(b), BITS_IN_WORD))
  }

  function BitAnd(a: Word, b: Word): Word { ZipWords((x, y) => x && y, a, b) }

  function BitOr(a: Word, b: Word): Word { ZipWords((x, y) => x || y, a, b) }

  function BitXor(a: Word, b: Word): Word { ZipWords((x, y) => x != y, a, b) }

  function BitNot(a: Word): Word { -1 - a }

  lemma {:induction false} BitOfZip(f: (bool, bool) -> bool, u: nat, v: nat, n: nat, k: nat)
    requires k < n
    ensures BitOf(Zip(f, u, v, n), k) == f(BitOf(u, k), BitOf(v, k))
  {
    if k > 0 {
      BitOfZip(f, u / 2, v / 2, n - 1, k - 1);
    }
  }

  lemma SignedUnsigned(u: int)
    requires 0 <= u < 0x1_0000_0000
    ensures Unsigned(Signed(u)) == u
  {
  }

  lemma ZipWordsBit(f: (bool, bool) -> bool, a: Word, b: Word, k: nat)
    requires k < BITS_IN_WORD
    ensures WordBit(ZipWords(f, a, b), k) == f(WordBit(a, k), WordBit(b, k))
  {
    hide Unsigned, Signed;
    Pow2Of32();
    SignedUnsigned(Zip(f, Unsigned(a), Unsigned(b), BITS_IN_WORD));
    BitOfZip(f, Unsigned(a), Unsigned(b), BITS_IN_WORD, k);
  }

  /** AND, OR, XOR and complement work on each bit by itself. */
  lemma BitwiseOperations(a: Word, b: Word, k: nat)
    requires k < BITS_IN_WORD
    ensures WordBit(BitAnd(a, b), k) == (WordBit(a, k) && WordBit(b, k))
    ensures WordBit(BitOr(a, b), k) == (WordBit(a, k) || WordBit(b, k))
    ensures WordBit(BitXor(a, b), k) == (WordBit(a, k) != WordBit(b, k))
    ensures WordBit(BitNot(a), k) == !WordBit(a, k)
  {
    hide WordBit, ZipWords;
    ZipWordsBit((x, y) => x && y, a, b, k);
    ZipWordsBit((x, y) => x || y, a, b, k);
    ZipWordsBit((x, y) => x != y, a, b, k);
    ComplementWord(a, k);
  }

  lemma ComplementWord(a: Word, k: nat)
    requires k < BITS_IN_WORD
    ensures WordBit(BitNot(a), k) == !WordBit(a, k)
  {
    Pow2Of32();
    assert Unsigned(BitNot(a)) == Pow2(BITS_IN_WORD) - 1 - Unsigned(a);
    ComplementBit(Unsigned(a), BITS_IN_WORD, k);
  }

  lemma {:induction false} ComplementBit(u: nat, n: nat, k: nat)
    requires k < n && u < Pow2(n)
    ensures BitOf(Pow2(n) - 1 - u, k) == !BitOf(u, k)
  {
    var c := Pow2(n) - 1 - u;
    assert c % 2 == 1 - u % 2 && c / 2 == Pow2(n - 1) - 1 - u / 2;
    if k > 0 {
      ComplementBit(u / 2, n - 1, k - 1);
    }
  }

  // ---------------------------------------------------------------- division

  /** Division that truncates towards zero. */
  function Quotient(a: int, b: int): int
    requires b != 0
  {
    var q := Abs(a) / Abs(b);
    if (a < 0) == (b < 0) then q else -q
  }

  /** DIV leaves a quotient rounded towards zero and a remainder with the sign of the dividend; but for
      the one quotient that does not fit, both are exact. */
  lemma DivisionIsExact(a: int, b: int)
    requires Fits(a) && Fits(b) && b != 0
    ensures var q := Quotient(a, b);
      var r: int := a - b * q;
      && Abs(r) < Abs(b) && (a >= 0 ==> r >= 0) && (a <= 0 ==> r <= 0)
      && Fits(r) && (!(a == -0x8000_0000 && b == -1) ==> Fits(q))
  {
    var n, d := Abs(a), Abs(b);
    assert n == d * (n / d) + n % d;
    Multipliers.Signs(b, Quotient(a, b));
    QuotientBound(n, d, n / d, n % d);
  }

  lemma QuotientBound(n: nat, d: nat, q: nat, r: nat)
    requires d > 0 && n == d * q + r
    ensures q <= n && (d >= 2 ==> 2 * q <= n)
  {
    Multipliers.MulMono(q, 1, d);
    if d >= 2 {
      Multipliers.MulMono(q, 2, d);
    }
  }

  // ---------------------------------------------------------------- shifts

  function ShiftLeft(a: Word, distance: nat): Word { Wrap(a * Pow2(distance)) }

  /** `int` shifted right: its sign comes in from the left. */
  function ShiftRight(a: Word, distance: nat): Word {
    var x: int := a;
    ShiftRightFits(x, Pow2(distance));
    x / Pow2(distance)
  }

  lemma ShiftRightFits(a: int, p: int)
    requires Fits(a) && p > 0
    ensures Fits(a / p)
  {
  }

  lemma {:induction false} ScaledBit(u: nat, d: nat, k: nat)
    ensures BitOf(u * Pow2(d), k) == (k >= d && BitOf(u, k - d))
  {
    if d > 0 {
      var half := u * Pow2(d - 1);
      assert u * Pow2(d) == 2 * half;
      if k > 0 {
        ScaledBit(u, d - 1, k - 1);
      }
    }
  }

  lemma {:induction false} LowBits(x: nat, n: nat, k: nat)
    requires k < n
    ensures BitOf(x % Pow2(n), k) == BitOf(x, k)
  {
    LowHalf(x, Pow2(n - 1));
    if k > 0 {
      LowBits(x / 2, n - 1, k - 1);
    }
  }

  lemma LowHalf(x: nat, p: nat)
    requires p > 0
    ensures (x % (2 * p)) % 2 == x % 2 && (x % (2 * p)) / 2 == x / 2 % p
  {
    var q, r := x / (2 * p), x % (2 * p);
    assert x == 2 * (p * q) + r;
    assert x / 2 == p * q + r / 2;
    DivMod(p, q, r / 2);
  }

  /** Quotient and remainder are what makes up the number. */
  lemma DivMod(p: int, q: int, r: int)
    requires 0 <= r < p
    ensures (p * q + r) / p == q && (p * q + r) % p == r
  {
    var x := p * q + r;
    assert x == p * (x / p) + x % p;
    Difference(p, q, x / p);
    OnlyZero(p, q - x / p);
  }

  lemma Difference(p: int, q: int, q': int)
    ensures p * (q - q') == p * q - p * q'
  {
  }

  lemma OnlyZero(p: int, m: int)
    requires -p < p * m < p
    ensures m == 0
  {
    if m > 0 {
      Multipliers.MulMono(p, 1, m);
    } else if m < 0 {
      Difference(p, 0, m);
      Multipliers.MulMono(p, 1, -m);
    }
  }

  /** The bits of a word move up, and zeros come in from the right. */
  lemma ShiftLeftBit(a: Word, d: nat, k: nat)
    requires k < BITS_IN_WORD
    ensures WordBit(ShiftLeft(a, d), k) == (k >= d && WordBit(a, k - d))
  {
    var x: int, u, p := a, Unsigned(a), Pow2(d);
    assert (x * p) % 0x1_0000_0000 == (u * p) % 0x1_0000_0000 by { SameModulo(x, u, p); }
    Pow2Of32();
    SignedUnsigned((u * p) % 0x1_0000_0000);
    LowBits(u * p, BITS_IN_WORD, k);
    ScaledBit(u, d, k);
  }

  lemma SameModulo(x: int, u: nat, p: nat)
    requires u == x || u == x + 0x1_0000_0000
    ensures (x * p) % 0x1_0000_0000 == (u * p) % 0x1_0000_0000
  {
    if u != x {
      assert u * p == x * p + 0x1_0000_0000 * p;
    }
  }

  /** `u` without its lowest `d` bits. */
  function Down(u: nat, d: nat): nat {
    if d == 0 then u else Down(u / 2, d - 1)
  }

  lemma {:induction false} DownIsDivision(u: nat, d: nat)
    ensures Down(u, d) == u / Pow2(d) <= u
  {
    if d > 0 {
      DownIsDivision(u / 2, d - 1);
      DivTwice(u, Pow2(d - 1));
    }
  }

  lemma DivTwice(u: nat, p: nat)
    requires p > 0
    ensures u / (2 * p) == u / 2 / p
  {
    var q, r := u / (2 * p), u % (2 * p);
    assert u == 2 * (p * q) + r;
    assert u / 2 == p * q + r / 2;
    DivMod(p, q, r / 2);
  }

  lemma {:induction false} ShiftedBit(u: nat, d: nat, k: nat)
    ensures BitOf(Down(u, d), k) == BitOf(u, k + d)
  {
    if d > 0 {
      ShiftedBit(u / 2, d - 1, k);
    }
  }

  lemma {:induction false} HighBit(u: nat, n: nat, k: nat)
    requires u < Pow2(n) && k >= n
    ensures !BitOf(u, k)
  {
    if n == 0 {
      NoBits(k);
    } else {
      HighBit(u / 2, n - 1, k - 1);
    }
  }

  /** The bits of a word move down, and copies of its sign come in from the left. */
  lemma ShiftRightBit(a: Word, d: nat, k: nat)
    requires k < BITS_IN_WORD
    ensures WordBit(ShiftRight(a, d), k) == if k + d < BITS_IN_WORD then WordBit(a, k + d) else a < 0
  {
    hide BitOf;
    Pow2Of32();
    var x: int, p := a, Pow2(d);
    ShiftRightFits(x, p);
    if x >= 0 {
      DownIsDivision(x, d);
      ShiftedBit(x, d, k);
      if k + d >= BITS_IN_WORD {
        HighBit(x, BITS_IN_WORD, k + d);
      }
    } else {
      var c: nat := -1 - x;
      FloorOfComplement(x, p);
      DownIsDivision(c, d);
      var down: Word := c / p;
      assert ShiftRight(a, d) == BitNot(down);
      ComplementWord(down, k);
      ShiftedBit(c, d, k);
      if k + d >= BITS_IN_WORD {
        HighBit(c, BITS_IN_WORD, k + d);
      } else {
        ComplementWord(a, k + d);
      }
    }
  }

  lemma FloorOfComplement(x: int, p: nat)
    requires -0x8000_0000 <= x < 0 && p > 0
    ensures x / p == -1 - (-1 - x) / p
  {
    var c := -1 - x;
    var q, r := c / p, c % p;
    assert c == p * q + r;
    Difference(p, -1, q);
    DivMod(p, -1 - q, p - 1 - r);
  }

  /** SRL and SRLV go through a signed number here, so the sign comes in where zeros should: what comes out
      is the unsigned word shifted down exactly when the word is not negative or stays where it is. */
  lemma ShiftRightIsLogical(a: Word, d: nat)
    requires d < BITS_IN_WORD
    ensures Unsigned(ShiftRight(a, d)) == Down(Unsigned(a), d) <==> a >= 0 || d == 0
  {
    DownIsDivision(Unsigned(a), d);
    ShiftRightFits(a, Pow2(d));
    if a < 0 && d > 0 {
      DownIsDivision(Unsigned(a) / 2, d - 1);
      NegativeStays(a, Pow2(d));
    }
  }

  lemma NegativeStays(x: int, p: nat)
    requires x < 0 && p > 0
    ensures x / p < 0
  {
  }
}
