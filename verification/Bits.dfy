/** Unsigned 32-bit words as bounded integers, and the bitwise operators of the
    source on them, defined bit by bit.  Shifts are multiplication and division by
    powers of two, as for unsigned operands in C++. */
module Bits {

  type Byte = x: int | 0 <= x < 0x100
  type Word = x: int | 0 <= x < 0x1_0000_0000

  const WORD_SPAN: int := 0x1_0000_0000
  const SIGN_BIT: int := 0x8000_0000

  datatype Option<+T> = None | Some(value: T)

  function Pow2(n: nat): (p: nat)
    ensures p >= 1
  {
    if n == 0 then 1 else 2 * Pow2(n - 1)
  }

  /** Reduction of an integer to the 32-bit word the hardware keeps. */
  function Wrap(x: int): Word {
    x % WORD_SPAN
  }

  function Plus(a: int, b: int): Word {
    Wrap(a + b)
  }

  function Minus(a: int, b: int): Word {
    Wrap(a - b)
  }

  lemma WrapAdd(x: int, y: int)
    ensures Wrap(Wrap(x) + y) == Wrap(x + y)
  {
  }

  /** The two's complement reading of a word. */
  function Signed(x: Word): int {
    if x >= SIGN_BIT then x - WORD_SPAN else x
  }

  predicate Negative(x: Word) {
    x >= SIGN_BIT
  }

  function Bit(c: bool): nat {
    if c then 1 else 0
  }

  function And(a: nat, b: nat): (r: nat)
    ensures r <= a && r <= b
    decreases a
  {
    if a == 0 || b == 0 then 0
    else Bit(a % 2 == 1 && b % 2 == 1) + 2 * And(a / 2, b / 2)
  }

  function Or(a: nat, b: nat): (r: nat)
    ensures a <= r && b <= r && r <= a + b
    decreases a + b
  {
    if a == 0 then b
    else if b == 0 then a
    else Bit(a % 2 == 1 || b % 2 == 1) + 2 * Or(a / 2, b / 2)
  }

  function Xor(a: nat, b: nat): (r: nat)
    ensures r <= a + b
    decreases a + b
  {
    if a == 0 then b
    else if b == 0 then a
    else Bit(a % 2 != b % 2) + 2 * Xor(a / 2, b / 2)
  }

  lemma {:induction false} OrFits(a: nat, b: nat, k: nat)
    requires a < Pow2(k) && b < Pow2(k)
    ensures Or(a, b) < Pow2(k)
  {
    if a != 0 && b != 0 {
      OrFits(a / 2, b / 2, k - 1);
    }
  }

  lemma {:induction false} XorFits(a: nat, b: nat, k: nat)
    requires a < Pow2(k) && b < Pow2(k)
    ensures Xor(a, b) < Pow2(k)
  {
    if a != 0 && b != 0 {
      XorFits(a / 2, b / 2, k - 1);
    }
  }

  lemma WordPow2()
    ensures Pow2(0) == 1 && Pow2(8) == 0x100 && Pow2(16) == 0x1_0000 && Pow2(24) == 0x100_0000
    ensures Pow2(28) == 0x1000_0000 && Pow2(32) == WORD_SPAN
  {
    assert Pow2(4) == 16;
    assert Pow2(8) == 256;
    assert Pow2(12) == 0x1000;
    assert Pow2(16) == 0x1_0000;
    assert Pow2(20) == 0x10_0000;
    assert Pow2(24) == 0x100_0000;
    assert Pow2(28) == 0x1000_0000;
    assert Pow2(32) == WORD_SPAN;
  }

  function OrWord(a: Word, b: Word): Word {
    WordPow2(); OrFits(a, b, 32);
    Or(a, b)
  }

  function XorWord(a: Word, b: Word): Word {
    WordPow2(); XorFits(a, b, 32);
    Xor(a, b)
  }

  function NotWord(a: Word): Word {
    0xffff_ffff - a
  }

  lemma AndOdd(a: nat, m: nat)
    ensures And(a, 2 * m + 1) == a % 2 + 2 * And(a / 2, m)
  {
    assert (2 * m + 1) / 2 == m && (2 * m + 1) % 2 == 1;
  }

  /** Masking with k one bits keeps the remainder modulo 2^k. */
  lemma AndMask(a: nat, k: nat)
    ensures And(a, Pow2(k) - 1) == a % Pow2(k)
  {
    hide And, Pow2;
    MaskIsRemainder(a, k);
  }

  function Remainder(a: nat, p: nat): nat
    requires p >= 1
  {
    a % p
  }

  lemma {:induction false} MaskIsRemainder(a: nat, k: nat)
    ensures And(a, Pow2(k) - 1) == Remainder(a, Pow2(k))
    decreases k
  {
    hide And, Pow2, Remainder;
    if k == 0 {
      assert Pow2(k) == 1 by {
        WordPow2();
      }
      NoMask(a, Pow2(k));
    } else {
      NextPow2(k);
      MaskIsRemainder(a / 2, k - 1);
      MaskStep(a, Pow2(k - 1), Pow2(k));
    }
  }

  lemma NoMask(a: nat, p: nat)
    requires p == 1
    ensures And(a, p - 1) == Remainder(a, p)
  {
  }

  lemma MaskStep(a: nat, p: nat, q: nat)
    requires p >= 1 && q == 2 * p && And(a / 2, p - 1) == Remainder(a / 2, p)
    ensures And(a, q - 1) == Remainder(a, q)
  {
    hide And;
    AndOdd(a, p - 1);
    ModOfDouble(a, p);
    assert q - 1 == 2 * (p - 1) + 1;
  }

  lemma NextPow2(k: nat)
    requires k > 0
    ensures Pow2(k) == 2 * Pow2(k - 1)
  {
  }

  lemma ModOfDouble(a: nat, p: nat)
    requires p >= 1
    ensures a % (2 * p) == a % 2 + 2 * ((a / 2) % p)
  {
    var h := a / 2;
    var q, r := h / p, h % p;
    assert h == q * p + r;
    assert a == q * (2 * p) + (2 * r + a % 2);
    DivModUnique(a, 2 * p, q, 2 * r + a % 2);
  }

  lemma DivModUnique(a: int, d: int, q: int, r: int)
    requires d > 0 && 0 <= r < d && a == q * d + r
    ensures a / d == q && a % d == r
  {
    var q', r' := a / d, a % d;
    assert (q - q') * d == r' - r;
    if q != q' {
      MultipleIsLarge(q - q', d);
    }
  }

  lemma MultipleIsLarge(x: int, d: int)
    requires d > 0 && x != 0
    ensures x * d >= d || x * d <= -d
  {
    if x >= 1 {
      assert x * d >= 1 * d;
    } else {
      assert x * d <= -1 * d;
    }
  }

  lemma OrEven(x: nat, b: nat)
    ensures Or(2 * x, b) == b % 2 + 2 * Or(x, b / 2)
  {
  }

  lemma XorEven(x: nat, b: nat)
    ensures Xor(2 * x, b) == b % 2 + 2 * Xor(x, b / 2)
  {
  }

  /** Or-ing a value into the free low bits of another adds it. */
  lemma {:induction false} OrDisjoint(high: nat, low: nat, k: nat)
    requires low < Pow2(k)
    ensures Or(high * Pow2(k), low) == high * Pow2(k) + low
  {
    if k > 0 {
      var p := Pow2(k - 1);
      Reassociate(high, p);
      OrEven(high * p, low);
      OrDisjoint(high, low / 2, k - 1);
    }
  }

  /** Xor-ing a value into the free low bits of another adds it. */
  lemma {:induction false} XorDisjoint(high: nat, low: nat, k: nat)
    requires low < Pow2(k)
    ensures Xor(high * Pow2(k), low) == high * Pow2(k) + low
  {
    if k > 0 {
      var p := Pow2(k - 1);
      Reassociate(high, p);
      XorEven(high * p, low);
      XorDisjoint(high, low / 2, k - 1);
    }
  }

  lemma Reassociate(x: int, p: int)
    ensures x * (2 * p) == 2 * (x * p)
  {
  }

  lemma HalfOfDouble(h: nat, p: nat)
    ensures (h * (2 * p)) / 2 == h * p && (h * (2 * p)) % 2 == 0
  {
    assert h * (2 * p) == 2 * (h * p);
  }

  lemma {:induction false} Pow2Add(a: nat, b: nat)
    ensures Pow2(a + b) == Pow2(a) * Pow2(b)
  {
    if a != 0 {
      Pow2Add(a - 1, b);
      TwiceProduct(Pow2(a - 1), Pow2(b));
    }
  }

  lemma TwiceProduct(p: int, q: int)
    ensures (2 * p) * q == 2 * (p * q)
  {
  }

  lemma MulMonotone(x: int, y: int, p: nat)
    requires x <= y
    ensures x * p <= y * p
  {
  }

  lemma MulLess(x: int, y: int, p: nat)
    requires x < y && p >= 1
    ensures x * p + p <= y * p
  {
    MulMonotone(x + 1, y, p);
    assert (x + 1) * p == x * p + p;
  }

  lemma Pow2Monotone(a: nat, b: nat)
    requires a <= b
    ensures Pow2(a) <= Pow2(b)
  {
  }

  /** Logical right shift. */
  function Shr(x: nat, n: nat): (r: nat)
    ensures r <= x
    decreases n
  {
    if n == 0 then x else Shr(x / 2, n - 1)
  }

  lemma {:induction false} ShrIsDiv(x: nat, n: nat)
    ensures Shr(x, n) == x / Pow2(n)
  {
    if n == 0 {
    } else {
      ShrIsDiv(x / 2, n - 1);
      DivDiv(x, 2, Pow2(n - 1));
    }
  }

  /** Dividing in two steps is dividing by the product. */
  lemma DivDiv(x: nat, a: nat, b: nat)
    requires a >= 1 && b >= 1
    ensures a * b >= 1
    ensures (x / a) / b == x / (a * b)
  {
    var h, s := x / a, x % a;
    var q, r := h / b, h % b;
    ProductOfSum(a, q, b, r);
    RemainderFits(a, b, r, s);
    DivModUnique(x, a * b, q, a * r + s);
  }

  lemma ProductOfSum(a: int, q: int, b: int, r: int)
    ensures a * (q * b + r) == q * (a * b) + a * r
  {
  }

  lemma RemainderFits(a: nat, b: nat, r: nat, s: nat)
    requires r < b && s < a
    ensures 0 <= a * r + s < a * b
  {
    MulLess(r, b, a);
  }

  /** The bits high..low of a word, as both helpers named extractBits compute them:
      shift right, then mask with (1 << count) - 1. */
  function ExtractBits(x: Word, high: nat, low: nat): (r: nat)
    requires high + 1 >= low
    ensures r < Pow2(high + 1 - low)
  {
    And(Shr(x, low), Pow2(high + 1 - low) - 1)
  }

  /** Shift and mask is division and remainder. */
  lemma ExtractBitsIsDivMod(x: Word, high: nat, low: nat)
    requires high + 1 >= low
    ensures ExtractBits(x, high, low) == (x / Pow2(low)) % Pow2(high + 1 - low)
  {
    ShrIsDiv(x, low);
    AndMask(Shr(x, low), high + 1 - low);
  }

  // ----- the bitwise operators, bit by bit

  /** Whether bit i of a number is set. */
  predicate BitSet(x: nat, i: nat) {
    (x / Pow2(i)) % 2 == 1
  }

  lemma NextBit(x: nat, i: nat)
    requires i > 0
    ensures BitSet(x, i) == BitSet(x / 2, i - 1)
  {
    DivDiv(x, 2, Pow2(i - 1));
  }

  lemma NoBits(i: nat)
    ensures !BitSet(0, i)
  {
  }

  lemma LowBit(x: nat)
    ensures BitSet(x, 0) <==> x % 2 == 1
  {
    assert Pow2(0) == 1;
  }

  lemma {:induction false} AndBits(a: nat, b: nat, i: nat)
    ensures BitSet(And(a, b), i) <==> BitSet(a, i) && BitSet(b, i)
  {
    hide BitSet;
    NoBits(i);
    if a == 0 || b == 0 {
    } else if i == 0 {
      LowAnd(a, b);
      LowBit(a);
      LowBit(b);
      LowBit(And(a, b));
    } else {
      hide And, Pow2;
      HalfAnd(a, b);
      NextBit(And(a, b), i);
      NextBit(a, i);
      NextBit(b, i);
      AndBits(a / 2, b / 2, i - 1);
    }
  }

  /** A number made of a bit and twice another. */
  lemma LastBit(c: bool, h: nat)
    ensures (Bit(c) + 2 * h) % 2 == Bit(c) && (Bit(c) + 2 * h) / 2 == h
  {
  }

  lemma LowAnd(a: nat, b: nat)
    ensures And(a, b) % 2 == 1 <==> a % 2 == 1 && b % 2 == 1
  {
    LastBit(a % 2 == 1 && b % 2 == 1, And(a / 2, b / 2));
  }

  lemma HalfAnd(a: nat, b: nat)
    ensures And(a, b) / 2 == And(a / 2, b / 2)
  {
    LastBit(a % 2 == 1 && b % 2 == 1, And(a / 2, b / 2));
  }

  lemma {:induction false} OrBits(a: nat, b: nat, i: nat)
    ensures BitSet(Or(a, b), i) <==> BitSet(a, i) || BitSet(b, i)
  {
    hide BitSet;
    NoBits(i);
    if a == 0 || b == 0 {
    } else if i == 0 {
      LowOr(a, b);
      LowBit(a);
      LowBit(b);
      LowBit(Or(a, b));
    } else {
      hide Or, Pow2;
      HalfOr(a, b);
      NextBit(Or(a, b), i);
      NextBit(a, i);
      NextBit(b, i);
      OrBits(a / 2, b / 2, i - 1);
    }
  }

  lemma LowOr(a: nat, b: nat)
    ensures Or(a, b) % 2 == 1 <==> a % 2 == 1 || b % 2 == 1
  {
    LastBit(a % 2 == 1 || b % 2 == 1, Or(a / 2, b / 2));
  }

  lemma HalfOr(a: nat, b: nat)
    ensures Or(a, b) / 2 == Or(a / 2, b / 2)
  {
    LastBit(a % 2 == 1 || b % 2 == 1, Or(a / 2, b / 2));
  }

  lemma {:induction false} ComplementBits(a: nat, k: nat, i: nat)
    requires a < Pow2(k) && i < k
    ensures BitSet(Pow2(k) - 1 - a, i) <==> !BitSet(a, i)
  {
    var c := Pow2(k) - 1 - a;
    if i > 0 {
      hide BitSet;
      assert c / 2 == Pow2(k - 1) - 1 - a / 2;
      NextBit(c, i);
      NextBit(a, i);
      ComplementBits(a / 2, k - 1, i - 1);
    }
  }

  /** The word operators act on each of the 32 bits. */
  lemma WordBits(a: Word, b: Word, i: nat)
    requires i < 32
    ensures BitSet(OrWord(a, b), i) <==> BitSet(a, i) || BitSet(b, i)
    ensures BitSet(And(a, b), i) <==> BitSet(a, i) && BitSet(b, i)
    ensures BitSet(NotWord(a), i) <==> !BitSet(a, i)
  {
    hide BitSet, Or, And, Pow2;
    WordPow2();
    OrBits(a, b, i);
    AndBits(a, b, i);
    ComplementBits(a, 32, i);
  }
}
