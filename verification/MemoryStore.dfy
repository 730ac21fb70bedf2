/** The byte memory: big-endian values of one, two or four bytes.  An access that
    leaves the memory stops at the first byte outside it and keeps what it did before. */
module Memory {
  import opened Bits

  const BYTE_SIZE: nat := 1
  const HALF_SIZE: nat := 2
  const WORD_SIZE: nat := 4
  const EINVAL: int := 22

  /** Contents of a memory whose first byte has address `start`. */
  datatype MemState = MemState(start: Word, bytes: Bytes)

  type Bytes = s: seq<Byte> | |s| < WORD_SPAN

  predicate ValidSize(size: nat) {
    size == BYTE_SIZE || size == HALF_SIZE || size == WORD_SIZE
  }

  /** Index in the array of the i-th byte of a value at `address`, in 32-bit arithmetic. */
  function Slot(m: MemState, address: Word, i: nat): Word {
    Wrap(address - m.start + i)
  }

  /** How many leading bytes of an access lie inside the memory. */
  function Available(m: MemState, address: Word, size: nat): (n: nat)
    ensures n <= size
    ensures forall i :: 0 <= i < n ==> Slot(m, address, i) < |m.bytes|
    ensures n < size ==> Slot(m, address, n) >= |m.bytes|
  {
    if size == 0 then 0
    else
      var n := Available(m, address, size - 1);
      if n == size - 1 && Slot(m, address, n) < |m.bytes| then size else n
  }

  predicate InRange(m: MemState, address: Word, size: nat) {
    Available(m, address, size) == size
  }

  /** The number written by a sequence of bytes, most significant first. */
  function BigEndian(bs: seq<Byte>): (v: nat)
    ensures v < Pow2(8 * |bs|)
  {
    if |bs| == 0 then 0
    else
      Pow2Add(8 * (|bs| - 1), 8); WordPow2();
      BigEndian(bs[..|bs| - 1]) * 0x100 + bs[|bs| - 1]
  }

  /** The bytes of an access that lie inside the memory. */
  function Reached(m: MemState, address: Word, size: nat): (bs: seq<Byte>)
    ensures |bs| == Available(m, address, size)
  {
    seq(Available(m, address, size),
        i requires 0 <= i < Available(m, address, size) => m.bytes[Slot(m, address, i)])
  }

  lemma ScaledFits(x: nat, a: nat, b: nat)
    requires x < Pow2(a) && a + b <= 32
    ensures x * Pow2(b) < WORD_SPAN
  {
    Pow2Add(a, b);
    Pow2Monotone(a + b, 32);
    WordPow2();
    MulLess(x, Pow2(a), Pow2(b));
  }

  function Scaled(x: nat, a: nat, b: nat): Word
    requires x < Pow2(a) && a + b <= 32
  {
    ScaledFits(x, a, b);
    x * Pow2(b)
  }

  /** A value of `size` bytes of which the leading ones are known and the rest are zero. */
  function Partial(bs: seq<Byte>, size: nat): (v: Word)
    requires |bs| <= size <= 4
  {
    Scaled(BigEndian(bs), 8 * |bs|, 8 * (size - |bs|))
  }

  /** The value a read yields: the reachable bytes, then zeros. */
  function Read(m: MemState, address: Word, size: nat): (v: Word)
    requires size <= 4
  {
    Partial(Reached(m, address, size), size)
  }

  /** The i-th byte, from the most significant, of the low `size` bytes of a value. */
  function ByteOf(value: Word, size: nat, i: nat): Byte
    requires i < size
  {
    (value / Pow2(8 * (size - 1 - i))) % 0x100
  }

  /** Which byte of an access at `address` the array index k holds. */
  function Offset(m: MemState, address: Word, k: nat): Word {
    Wrap(k - (address - m.start))
  }

  /** The memory after a write: exactly the reachable bytes of the access change. */
  function Write(m: MemState, address: Word, value: Word, size: nat): (r: MemState)
    ensures r.start == m.start && |r.bytes| == |m.bytes|
  {
    var n := Available(m, address, size);
    m.(bytes := seq(|m.bytes|, k requires 0 <= k < |m.bytes| =>
      if Offset(m, address, k) < n then ByteOf(value, size, Offset(m, address, k)) else m.bytes[k]))
  }

  lemma OffsetOfSlot(m: MemState, address: Word, i: nat)
    requires i < 4
    ensures Offset(m, address, Slot(m, address, i)) == i
  {
  }

  lemma SlotOfOffset(m: MemState, address: Word, k: nat)
    requires k < WORD_SPAN
    ensures Slot(m, address, Offset(m, address, k)) == k
  {
  }

  /** What a byte of the memory is after a write, at the place of the access. */
  lemma WriteAtSlot(m: MemState, address: Word, value: Word, size: nat, i: nat)
    requires size <= 4 && i < Available(m, address, size)
    ensures Write(m, address, value, size).bytes[Slot(m, address, i)] == ByteOf(value, size, i)
  {
    OffsetOfSlot(m, address, i);
  }

  /** Two accesses that share no byte of the memory. */
  ghost predicate Disjoint(m: MemState, a: Word, s: nat, b: Word, t: nat) {
    forall i, j :: 0 <= i < s && 0 <= j < t ==> Slot(m, a, i) != Slot(m, b, j)
  }

  lemma {:induction false} SameAvailable(m: MemState, m': MemState, a: Word, size: nat)
    requires m'.start == m.start && |m'.bytes| == |m.bytes|
    ensures Available(m', a, size) == Available(m, a, size)
  {
    if size > 0 {
      SameAvailable(m, m', a, size - 1);
    }
  }

  /** A write changes no read of a disjoint range, whether or not either is in range. */
  lemma ReadAfterDisjointWrite(m: MemState, a: Word, value: Word, s: nat, b: Word, t: nat)
    requires s <= 4 && t <= 4
    requires Disjoint(m, a, s, b, t)
    ensures Read(Write(m, a, value, s), b, t) == Read(m, b, t)
  {
    hide Partial, Write, Disjoint, Available;
    var m' := Write(m, a, value, s);
    SameAvailable(m, m', b, t);
    SameSlots(m, m', b);
    forall j | 0 <= j < Available(m, b, t)
      ensures m'.bytes[Slot(m, b, j)] == m.bytes[Slot(m, b, j)]
    {
      OtherSlot(m, a, value, s, b, t, j);
    }
    assert Reached(m', b, t) == Reached(m, b, t);
  }

  lemma OtherSlot(m: MemState, a: Word, value: Word, s: nat, b: Word, t: nat, j: nat)
    requires s <= 4 && Disjoint(m, a, s, b, t) && j < t && Slot(m, b, j) < |m.bytes|
    ensures Write(m, a, value, s).bytes[Slot(m, b, j)] == m.bytes[Slot(m, b, j)]
  {
    hide Slot, ByteOf;
    SlotOfOffset(m, a, Slot(m, b, j));
  }

  lemma SameSlots(m: MemState, m': MemState, a: Word)
    requires m'.start == m.start
    ensures forall i: nat :: Slot(m', a, i) == Slot(m, a, i)
  {
  }

  lemma WrittenBytes(m: MemState, a: Word, value: Word, size: nat)
    requires size <= 4 && InRange(m, a, size)
    ensures var m' := Write(m, a, value, size);
      InRange(m', a, size) &&
      forall i :: 0 <= i < size ==> Reached(m', a, size)[i] == ByteOf(value, size, i)
  {
    hide ByteOf, Slot;
    var m' := Write(m, a, value, size);
    SameAvailable(m, m', a, size);
    SameSlots(m, m', a);
    forall i | 0 <= i < size ensures m'.bytes[Slot(m, a, i)] == ByteOf(value, size, i) {
      WriteAtSlot(m, a, value, size, i);
    }
  }

  /** A read of what was just written yields its low bytes. */
  lemma ReadAfterWrite(m: MemState, a: Word, value: Word, size: nat)
    requires ValidSize(size) && InRange(m, a, size)
    ensures Read(Write(m, a, value, size), a, size) == value % Pow2(8 * size)
  {
    var m' := Write(m, a, value, size);
    WrittenBytes(m, a, value, size);
    var bs := Reached(m', a, size);
    assert Read(m', a, size) == BigEndian(bs) * Pow2(0);
    BytesOfValue(value, size, size, bs);
    assert value / Pow2(0) == value;
  }

  /** Reading bytes back from a value, one more byte at a time. */
  lemma {:induction false} BytesOfValue(value: Word, size: nat, n: nat, bs: seq<Byte>)
    requires n <= size && |bs| == n
    requires forall i :: 0 <= i < n ==> bs[i] == ByteOf(value, size, i)
    ensures BigEndian(bs) == (value / Pow2(8 * (size - n))) % Pow2(8 * n)
  {
    if n == 0 {
    } else {
      BytesOfValue(value, size, n - 1, bs[..n - 1]);
      OneMoreByte(value, size, n);
    }
  }

  lemma OneMoreByte(value: Word, size: nat, n: nat)
    requires 0 < n <= size
    ensures (value / Pow2(8 * (size - n))) % Pow2(8 * n)
         == ((value / Pow2(8 * (size - (n - 1)))) % Pow2(8 * (n - 1))) * 0x100 + ByteOf(value, size, n - 1)
  {
    hide Pow2;
    var p := Pow2(8 * (size - n));
    WordPow2();
    Pow2Add(8 * (size - n), 8);
    Pow2Add(8 * (n - 1), 8);
    DivDiv(value, p, 0x100);
    ModSplit(value / p, Pow2(8 * (n - 1)));
  }

  lemma ModSplit(x: nat, p: nat)
    requires p >= 1
    ensures p * 0x100 >= 1
    ensures x % (p * 0x100) == ((x / 0x100) % p) * 0x100 + x % 0x100
  {
    var h := x / 0x100;
    var q, r := h / p, h % p;
    assert h == q * p + r;
    assert x == q * (p * 0x100) + (r * 0x100 + x % 0x100);
    DivModUnique(x, p * 0x100, q, r * 0x100 + x % 0x100);
  }

  /** A word is the big-endian combination of its halves, and a half of its bytes. */
  lemma ReadInPieces(m: MemState, a: Word)
    ensures InRange(m, a, 2) ==>
      InRange(m, a, 1) && InRange(m, Wrap(a + 1), 1) &&
      Read(m, a, 2) == Read(m, a, 1) * 0x100 + Read(m, Wrap(a + 1), 1)
    ensures InRange(m, a, 4) ==>
      InRange(m, a, 2) && InRange(m, Wrap(a + 2), 2) &&
      Read(m, a, 4) == Read(m, a, 2) * 0x1_0000 + Read(m, Wrap(a + 2), 2)
  {
    hide Read, Slot;
    if InRange(m, a, 2) {
      PieceAt(m, a, 2);
      PieceAt(m, a, 1);
      ShiftedRange(m, a, 2, 1, 1);
      SlotShift(m, a, 1, 0);
      PieceAt(m, Wrap(a + 1), 1);
    }
    if InRange(m, a, 4) {
      PieceAt(m, a, 4);
      PieceAt(m, a, 2);
      ShiftedRange(m, a, 4, 2, 2);
      SlotShift(m, a, 2, 0);
      SlotShift(m, a, 2, 1);
      PieceAt(m, Wrap(a + 2), 2);
    }
  }

  // ----- where the bytes of an access are

  /** The first i + 1 bytes of an access lie inside the memory. */
  predicate Reaches(m: MemState, a: Word, i: nat) {
    (a - m.start + i) % 0x1_0000_0000 < |m.bytes| && (i > 0 ==> Reaches(m, a, i - 1))
  }

  lemma {:induction false} ReachesIsAvailable(m: MemState, a: Word, size: nat, i: nat)
    requires i < size
    ensures Reaches(m, a, i) <==> i < Available(m, a, size)
  {
    assert Slot(m, a, i) == (a - m.start + i) % 0x1_0000_0000;
    if i > 0 {
      ReachesIsAvailable(m, a, size, i - 1);
    }
  }

  lemma {:induction false} DigitOfBytes(bs: seq<Byte>, i: nat)
    requires i < |bs|
    ensures (BigEndian(bs) / Pow2(8 * (|bs| - 1 - i))) % 0x100 == bs[i]
  {
    var n := |bs| - 1;
    var front := bs[..n];
    if i == n {
      LowDigit(BigEndian(bs), BigEndian(front), bs[n], Pow2(0));
    } else {
      WordPow2();
      Pow2Add(8, 8 * (n - 1 - i));
      DigitOfBytes(front, i);
      HigherDigit(BigEndian(bs), BigEndian(front), bs[n], Pow2(8 * (n - 1 - i)), Pow2(8 * (n - i)));
    }
  }

  /** The last digit of a number. */
  lemma LowDigit(v: nat, front: nat, last: Byte, p: nat)
    requires v == front * 0x100 + last && p == 1
    ensures (v / p) % 0x100 == last
  {
    DivModUnique(v, 0x100, front, last);
  }

  /** A digit above the last one is a digit of the number without it. */
  lemma HigherDigit(v: nat, front: nat, last: Byte, q: nat, r: nat)
    requires v == front * 0x100 + last && q >= 1 && r == 0x100 * q
    ensures v / r == front / q
  {
    DivModUnique(v, 0x100, front, last);
    DivDiv(v, 0x100, q);
  }

  lemma DigitOfPartial(bs: seq<Byte>, size: nat, i: nat)
    requires |bs| <= size <= 4 && i < size
    ensures (Partial(bs, size) / Pow2(8 * (size - 1 - i))) % 0x100 == if i < |bs| then bs[i] else 0
  {
    hide Pow2, BigEndian;
    WordPow2();
    var v, n := BigEndian(bs), |bs|;
    if i < n {
      Pow2Add(8 * (size - n), 8 * (n - 1 - i));
      ScaledDigit(v, Pow2(8 * (size - n)), Pow2(8 * (n - 1 - i)));
      DigitOfBytes(bs, i);
    } else {
      Pow2Add(8 * (size - 1 - i), 8);
      Pow2Add(8 * (size - 1 - i) + 8, 8 * (i - n));
      ZeroDigit(v, Pow2(8 * (size - 1 - i)), Pow2(8 * (i - n)));
    }
  }

  /** A digit of a scaled number is one of the number. */
  lemma ScaledDigit(v: nat, p: nat, q: nat)
    requires p >= 1 && q >= 1
    ensures p * q >= 1 && (v * p) / (p * q) == v / q
  {
    DivDiv(v * p, p, q);
    DivModUnique(v * p, p, v, 0);
  }

  /** The digits below a scaled number are zero. */
  lemma ZeroDigit(v: nat, p: nat, q: nat)
    requires p >= 1
    ensures ((v * (p * 0x100 * q)) / p) % 0x100 == 0
  {
    var w := v * q;
    TimesMoved(v, p, q);
    DivModUnique(w * 0x100 * p, p, w * 0x100, 0);
    DivModUnique(w * 0x100, 0x100, w, 0);
  }

  lemma TimesMoved(v: int, p: int, q: int)
    ensures v * (p * 0x100 * q) == v * q * 0x100 * p
  {
  }

  /** What a read yields, byte by byte: most significant first, the i-th from the i-th
      address after the start of the access, and zeros from the first one outside. */
  lemma ReadByByte(m: MemState, a: Word, size: nat, i: nat)
    requires size <= 4 && i < size
    ensures (Read(m, a, size) / Pow2(8 * (size - 1 - i))) % 0x100
         == if Reaches(m, a, i) then m.bytes[(a - m.start + i) % 0x1_0000_0000] else 0
  {
    hide Partial, Pow2, Available;
    ReachesIsAvailable(m, a, size, i);
    DigitOfPartial(Reached(m, a, size), size, i);
  }

  /** The i-th byte of an access is the k-th of the memory, and none before it is outside. */
  predicate Touches(m: MemState, a: Word, size: nat, i: nat, k: nat) {
    i < size && Reaches(m, a, i) && k == (a - m.start + i) % 0x1_0000_0000
  }

  /** What a write leaves, byte by byte: the bytes of the value in the same places, up to
      the first one outside, and every other byte as it was. */
  lemma WriteByByte(m: MemState, a: Word, value: Word, size: nat, k: nat)
    requires size <= 4 && k < |m.bytes|
    ensures forall i :: Touches(m, a, size, i, k) ==>
      Write(m, a, value, size).bytes[k] == (value / Pow2(8 * (size - 1 - i))) % 0x100
    ensures (forall i :: !Touches(m, a, size, i, k)) ==> Write(m, a, value, size).bytes[k] == m.bytes[k]
  {
    hide Pow2, Available, Reaches;
    forall i | Touches(m, a, size, i, k)
      ensures Write(m, a, value, size).bytes[k] == (value / Pow2(8 * (size - 1 - i))) % 0x100
    {
      ReachesIsAvailable(m, a, size, i);
      assert Slot(m, a, i) == k;
      WriteAtSlot(m, a, value, size, i);
    }
    var i := Offset(m, a, k);
    if i < Available(m, a, size) {
      ReachesIsAvailable(m, a, size, i);
      SlotOfOffset(m, a, k);
      assert Touches(m, a, size, i, k);
    }
  }

  lemma SlotInTwoSteps(m: MemState, a: Word, i: nat)
    ensures Wrap(Wrap(a - m.start) + i) == Slot(m, a, i)
  {
    WrapAdd(a - m.start, i);
  }

  lemma SlotShift(m: MemState, a: Word, skip: nat, i: nat)
    ensures Slot(m, Wrap(a + skip), i) == Slot(m, a, skip + i)
  {
  }

  /** The tail of an access in range is an access in range. */
  lemma {:induction false} ShiftedRange(m: MemState, a: Word, size: nat, skip: nat, n: nat)
    requires InRange(m, a, size) && skip + n <= size
    ensures InRange(m, Wrap(a + skip), n)
  {
    if n > 0 {
      ShiftedRange(m, a, size, skip, n - 1);
      SlotShift(m, a, skip, n - 1);
    }
  }

  function ByteAt(m: MemState, a: Word, i: nat): int
    requires Slot(m, a, i) < |m.bytes|
  {
    m.bytes[Slot(m, a, i)]
  }

  /** An access in range, byte by byte. */
  lemma PieceAt(m: MemState, a: Word, size: nat)
    requires ValidSize(size) && InRange(m, a, size)
    ensures size == 1 ==> Read(m, a, 1) == ByteAt(m, a, 0)
    ensures size == 2 ==>
      Read(m, a, 2) == ByteAt(m, a, 0) * 0x100 + ByteAt(m, a, 1)
    ensures size == 4 ==>
      Read(m, a, 4) == ByteAt(m, a, 0) * 0x100_0000 + ByteAt(m, a, 1) * 0x1_0000
                       + ByteAt(m, a, 2) * 0x100 + ByteAt(m, a, 3)
  {
    var bs := Reached(m, a, size);
    assert Read(m, a, size) == BigEndian(bs);
    assert bs[..1] == [bs[0]];
    if size >= 2 {
      assert bs[..2] == [bs[0], bs[1]] && bs[..2][..1] == [bs[0]];
      assert BigEndian(bs[..2]) == (bs[0] as int) * 0x100 + bs[1];
    }
    if size == 4 {
      assert bs[..3][..2] == bs[..2] && bs[..4] == bs && bs[..4][..3] == bs[..3];
      assert BigEndian(bs[..3]) == BigEndian(bs[..2]) * 0x100 + bs[2];
    }
  }

  lemma PartialEmpty(size: nat)
    requires size <= 4
    ensures Partial([], size) == 0
  {
  }

  /** One step of the read loop: or-ing in the next byte. */
  lemma ReadStep(bs: seq<Byte>, b: Byte, size: nat)
    requires |bs| < size <= 4
    ensures Or(Partial(bs, size), b * Pow2((size - 1 - |bs|) * 8)) == Partial(bs + [b], size)
  {
    var k := 8 * (size - 1 - |bs|);
    Pow2Add(k, 8);
    WordPow2();
    MulLess(b, 0x100, Pow2(k));
    OrDisjoint(BigEndian(bs), b * Pow2(k), k + 8);
    assert (bs + [b])[..|bs|] == bs;
    Regroup(BigEndian(bs), b, Pow2(k));
  }

  /** value | (byte << shift), in the loop that has read the bytes `bs`. */
  function OrByte(ghost bs: seq<Byte>, ghost size: nat, value: Word, b: Byte, shift: nat): (r: Word)
    requires |bs| < size <= 4 && value == Partial(bs, size) && shift == (size - 1 - |bs|) * 8
    ensures r == Partial(bs + [b], size)
  {
    ReadStep(bs, b, size);
    Or(value, b * Pow2(shift))
  }

  lemma Regroup(x: int, b: int, p: int)
    ensures x * (p * 0x100) + b * p == (x * 0x100 + b) * p
  {
  }

  /** (value >> shift) & 0xFF */
  function ByteOfShifted(value: Word, shift: nat): (b: Byte)
    ensures b == (value / Pow2(shift)) % 0x100
  {
    ShrIsDiv(value, shift);
    WordPow2();
    AndMask(Shr(value, shift), 8);
    And(Shr(value, shift), 0xff)
  }

  lemma OnlySlot(m: MemState, address: Word, i: nat)
    requires i < 4
    ensures forall k :: 0 <= k < WORD_SPAN ==>
      (Offset(m, address, k) == i <==> k == Slot(m, address, i))
  {
    OffsetOfSlot(m, address, i);
    forall k | 0 <= k < WORD_SPAN
      ensures Offset(m, address, k) == i ==> k == Slot(m, address, i)
    {
      SlotOfOffset(m, address, k);
    }
  }

  class MemoryStore {
    const startAddr: Word
    const memArr: array<Byte>

    ghost predicate Valid() {
      memArr.Length < WORD_SPAN
    }

    ghost function State(): MemState
      requires Valid()
      reads memArr
    {
      MemState(startAddr, memArr[..])
    }

    constructor (startAddr: Word, numEntries: Word)
      ensures Valid() && fresh(memArr)
      ensures State() == MemState(startAddr, seq(numEntries, _ => 0))
    {
      this.startAddr := startAddr;
      memArr := new Byte[numEntries](_ => 0);
    }

    /** Reads into, or writes from, the value; the result is the status and the value. */
    method GetOrSetValue(get: bool, address: Word, value: Word, size: nat)
      returns (status: int, result: Word)
      requires Valid()
      modifies memArr
      ensures !ValidSize(size) ==> status == -EINVAL && result == value && State() == old(State())
      ensures ValidSize(size) ==>
        && status == (if InRange(old(State()), address, size) then 0 else -EINVAL)
        && result == (if get then Read(old(State()), address, size) else value)
        && State() == (if get then old(State()) else Write(old(State()), address, value, size))
    {
      if size != BYTE_SIZE && size != HALF_SIZE && size != WORD_SIZE {
        return -EINVAL, value;
      }
      if get {
        status, result := GetBytes(address, size);
      } else {
        status := SetBytes(address, value, size);
        result := value;
      }
    }

    /** The reading loop of GetOrSetValue. */
    method GetBytes(address: Word, size: nat) returns (status: int, result: Word)
      requires Valid() && size <= 4
      ensures status == (if InRange(State(), address, size) then 0 else -EINVAL)
      ensures result == Read(State(), address, size)
    {
      hide Partial, BigEndian, Pow2, Or;
      PartialEmpty(size);
      ghost var m, bs := State(), [];
      ghost var all := Reached(m, address, size);
      var relativeAddr := Wrap(address - startAddr);
      var i := 0;
      result := 0;
      while i < size
        invariant 0 <= i <= |all| && bs == all[..i]
        invariant result == Partial(bs, size)
      {
        var at := Wrap(relativeAddr + i);
        SlotInTwoSteps(m, address, i);
        if at >= memArr.Length {
          assert bs == all;
          return -EINVAL, result;
        }
        result := OrByte(bs, size, result, memArr[at], (size - 1 - i) * 8);
        bs := bs + [memArr[at]];
        i := i + 1;
      }
      assert bs == all;
      status := 0;
    }

    /** The writing loop of GetOrSetValue. */
    method SetBytes(address: Word, value: Word, size: nat) returns (status: int)
      requires Valid() && size <= 4
      modifies memArr
      ensures status == (if InRange(old(State()), address, size) then 0 else -EINVAL)
      ensures State() == Write(old(State()), address, value, size)
    {
      ghost var m := State();
      ghost var n := Available(m, address, size);
      var relativeAddr := Wrap(address - startAddr);
      var i := 0;
      while i < size
        invariant 0 <= i <= n
        invariant forall k :: 0 <= k < memArr.Length ==>
          memArr[k] == (if Offset(m, address, k) < i then ByteOf(value, size, Offset(m, address, k)) else m.bytes[k])
      {
        var at := Wrap(relativeAddr + i);
        SlotInTwoSteps(m, address, i);
        if at >= memArr.Length {
          assert i == n;
          assert memArr[..] == Write(m, address, value, size).bytes;
          return -EINVAL;
        }
        memArr[at] := ByteOfShifted(value, (size - 1 - i) * 8);
        OnlySlot(m, address, i);
        i := i + 1;
      }
      assert memArr[..] == Write(m, address, value, size).bytes;
      status := 0;
    }

    method GetMemValue(address: Word, value: Word, size: nat) returns (status: int, result: Word)
      requires Valid()
      modifies memArr
      ensures State() == old(State())
      ensures ValidSize(size) ==>
        && (status == 0 <==> InRange(State(), address, size))
        && result == Read(State(), address, size)
      ensures !ValidSize(size) ==> status == -EINVAL && result == value
    {
      status, result := GetOrSetValue(true, address, value, size);
    }

    method SetMemValue(address: Word, value: Word, size: nat) returns (status: int)
      requires Valid()
      modifies memArr
      ensures ValidSize(size) ==>
        && (status == 0 <==> InRange(old(State()), address, size))
        && State() == Write(old(State()), address, value, size)
      ensures !ValidSize(size) ==> status == -EINVAL && State() == old(State())
    {
      var same: Word;
      status, same := GetOrSetValue(false, address, value, size);
    }
  }
}
