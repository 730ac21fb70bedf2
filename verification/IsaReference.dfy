/** An independent account of the instructions the simulator implements, after MIPS32
    Architecture For Programmers Volume II, in big-endian mode: two program counters
    instead of a pending branch, signed integers instead of sign bits, quotients and
    remainders instead of masks, a register 0 that is always zero, and address errors.
    It is the manual on the words of `Encoded`.  On every other word it follows the
    simulator: fields that a format fixes at zero are ignored, and an unknown opcode or
    function is reserved, also where the manual assigns it (XOR, LB, SRA and others).
    The memory array, what lies outside it, the halt word, the exception address 0x8000
    and branches in delay slots, which the manual leaves open, are the simulator's too. */
module IsaReference {
  import opened Bits
  import opened Memory
  import opened Emulation

  /** The registers of the manual: register 0 is zero whatever is written to it. */
  type Gprs = s: Regs | s[0] == 0 witness seq(32, i => 0)

  datatype Arch = Arch(pc: Word, npc: Word, regs: Gprs, mem: MemState)

  datatype Outcome =
    | Continue(regs: Gprs, mem: MemState)
    | Jump(regs: Gprs, mem: MemState, target: Word)
    | IntegerOverflow
    | ReservedInstruction
    | AddressError

  datatype Fields = Fields(op: nat, rs: RegIndex, rt: RegIndex, rd: RegIndex, sa: RegIndex,
                           funct: nat, imm: Half, index: nat)

  function Split(w: Word): Fields {
    Fields(w / 0x400_0000, (w / 0x20_0000) % 32, (w / 0x1_0000) % 32, (w / 0x800) % 32,
           (w / 0x40) % 32, w % 64, w % 0x1_0000, w % 0x400_0000)
  }

  /** The 16-bit immediate as a signed number. */
  function SignedImm(imm: Half): int {
    if imm >= 0x8000 then imm - 0x1_0000 else imm
  }

  predicate Representable(x: int) {
    -0x8000_0000 <= x < 0x8000_0000
  }

  function Zeroed(regs: Regs): Gprs {
    regs[0 := 0]
  }

  /** Writes a register; writes to register 0 are discarded. */
  function Put(regs: Gprs, dest: RegIndex, x: Word): Gprs {
    if dest == 0 then regs else regs[dest := x]
  }

  /** Writes an exact signed result, or traps when it does not fit. */
  function Exact(x: int, regs: Gprs, mem: MemState, dest: RegIndex): Outcome {
    if Representable(x) then Continue(Put(regs, dest, Wrap(x)), mem) else IntegerOverflow
  }

  function Branch(c: bool, npc: Word, imm: Half, regs: Gprs, mem: MemState): Outcome {
    if c then Jump(regs, mem, Wrap(npc + 4 * SignedImm(imm))) else Continue(regs, mem)
  }

  /** Loads from a naturally aligned address. */
  function AlignedLoad(ea: Word, size: nat, regs: Gprs, mem: MemState, dest: RegIndex): Outcome
    requires 1 <= size <= 4
  {
    if ea % size == 0 then Continue(Put(regs, dest, Read(mem, ea, size)), mem) else AddressError
  }

  /** Stores to a naturally aligned address. */
  function AlignedStore(ea: Word, size: nat, regs: Gprs, mem: MemState, value: Word): Outcome
    requires 1 <= size <= 4
  {
    if ea % size == 0 then Continue(regs, Write(mem, ea, value, size)) else AddressError
  }

  function RegisterForm(f: Fields, regs: Gprs, mem: MemState): Outcome {
    var a, b := regs[f.rs], regs[f.rt];
    if f.funct == 0x20 then Exact(Signed(a) + Signed(b), regs, mem, f.rd)
    else if f.funct == 0x21 then Continue(Put(regs, f.rd, Plus(a, b)), mem)
    else if f.funct == 0x22 then Exact(Signed(a) - Signed(b), regs, mem, f.rd)
    else if f.funct == 0x23 then Continue(Put(regs, f.rd, Minus(a, b)), mem)
    else if f.funct == 0x24 then Continue(Put(regs, f.rd, And(a, b)), mem)
    else if f.funct == 0x25 then Continue(Put(regs, f.rd, OrWord(a, b)), mem)
    else if f.funct == 0x27 then Continue(Put(regs, f.rd, NotWord(OrWord(a, b))), mem)
    else if f.funct == 0x2a then Continue(Put(regs, f.rd, Bit(Signed(a) < Signed(b))), mem)
    else if f.funct == 0x2b then Continue(Put(regs, f.rd, Bit(a < b)), mem)
    else if f.funct == 0x00 then Continue(Put(regs, f.rd, Wrap(b * Pow2(f.sa))), mem)
    else if f.funct == 0x02 then Continue(Put(regs, f.rd, Quotient(b, f.sa)), mem)
    else if f.funct == 0x08 then Jump(regs, mem, a)
    else ReservedInstruction
  }

  function Quotient(b: Word, n: nat): Word {
    ShrIsDiv(b, n);
    b / Pow2(n)
  }

  function Region(npc: Word, index: nat): Word
    requires index < 0x400_0000
  {
    (npc / 0x1000_0000) * 0x1000_0000 + index * 4
  }

  /** One instruction; `npc` is the address of the instruction in the delay slot. */
  function Perform(w: Word, npc: Word, regs: Gprs, mem: MemState): Outcome {
    var f := Split(w);
    var a, b := regs[f.rs], regs[f.rt];
    var simm := SignedImm(f.imm);
    var ea := Wrap(a + simm);
    if f.op == 0x0 then RegisterForm(f, regs, mem)
    else if f.op == 0x2 then Jump(regs, mem, Region(npc, f.index))
    else if f.op == 0x3 then Jump(Put(regs, 31, Plus(npc, 4)), mem, Region(npc, f.index))
    else if f.op == 0x4 then Branch(a == b, npc, f.imm, regs, mem)
    else if f.op == 0x5 then Branch(a != b, npc, f.imm, regs, mem)
    else if f.op == 0x6 then Branch(Signed(a) <= 0, npc, f.imm, regs, mem)
    else if f.op == 0x7 then Branch(Signed(a) > 0, npc, f.imm, regs, mem)
    else if f.op == 0x8 then Exact(Signed(a) + simm, regs, mem, f.rt)
    else if f.op == 0x9 then Continue(Put(regs, f.rt, Wrap(a + simm)), mem)
    else if f.op == 0xa then Continue(Put(regs, f.rt, Bit(Signed(a) < simm)), mem)
    else if f.op == 0xb then Continue(Put(regs, f.rt, Bit(a < Wrap(simm))), mem)
    else if f.op == 0xc then Continue(Put(regs, f.rt, And(a, f.imm)), mem)
    else if f.op == 0xd then Continue(Put(regs, f.rt, OrWord(a, f.imm)), mem)
    else if f.op == 0xf then Continue(Put(regs, f.rt, f.imm * 0x1_0000), mem)
    else if f.op == 0x23 then AlignedLoad(ea, 4, regs, mem, f.rt)
    else if f.op == 0x24 then AlignedLoad(ea, 1, regs, mem, f.rt)
    else if f.op == 0x25 then AlignedLoad(ea, 2, regs, mem, f.rt)
    else if f.op == 0x28 then AlignedStore(ea, 1, regs, mem, b % 0x100)
    else if f.op == 0x29 then AlignedStore(ea, 2, regs, mem, b % 0x1_0000)
    else if f.op == 0x2b then AlignedStore(ea, 4, regs, mem, b)
    else ReservedInstruction
  }

  /** The operations the simulator implements, by opcode and function. */
  predicate Known(f: Fields) {
    || (f.op == 0x0 && f.funct in {0x20, 0x21, 0x22, 0x23, 0x24, 0x25, 0x27, 0x2a, 0x2b, 0x00, 0x02, 0x08})
    || f.op in {0x2, 0x3, 0x4, 0x5, 0x6, 0x7, 0x8, 0x9, 0xa, 0xb, 0xc, 0xd, 0xf,
                0x23, 0x24, 0x25, 0x28, 0x29, 0x2b}
  }

  /** What the fields that the format of a known operation fixes at zero contribute to its word. */
  function Stray(f: Fields): nat {
    if f.op == 0x0 && (f.funct == 0x00 || f.funct == 0x02) then f.rs * 0x20_0000
    else if f.op == 0x0 && f.funct == 0x08 then f.rt * 0x1_0000 + f.rd * 0x800
    else if f.op == 0x0 then f.sa * 0x40
    else if f.op == 0x6 || f.op == 0x7 then f.rt * 0x1_0000
    else if f.op == 0xf then f.rs * 0x20_0000
    else 0
  }

  /** The words the manual assigns to the operations the simulator implements. */
  predicate Encoded(w: Word) {
    Known(Split(w)) && Stray(Split(w)) == 0
  }

  /** How the two program counters move: past the delay slot, to the target of a jump
      after the delay slot, or to the exception address. */
  function Advance(s: Arch, o: Outcome): Arch {
    match o
    case Continue(r, m) => Arch(s.npc, Plus(s.npc, 4), r, m)
    case Jump(r, m, target) => Arch(s.npc, target, r, m)
    case _ => Arch(0x8000, 0x8004, s.regs, s.mem)
  }

  /** One step of the machine with two program counters, given what instructions do. */
  function StepWith(s: Arch, perform: (Word, Word, Gprs, MemState) -> Outcome): Arch {
    var w := Read(s.mem, s.pc, 4);
    Advance(s, if w == HALT_WORD then Continue(s.regs, s.mem) else perform(w, s.npc, s.regs, s.mem))
  }

  /** One step of the reference machine, which also checks the alignment of the PC. */
  function ArchStep(s: Arch): Arch {
    if s.pc % 4 == 0 then StepWith(s, Perform) else Advance(s, AddressError)
  }

  function ArchRun(s: Arch, n: nat): Arch {
    if n == 0 then s else ArchStep(ArchRun(s, n - 1))
  }

  /** The two program counters a state of the emulator stands for. */
  function Abstract(e: EmuState): Arch {
    Arch(e.pc, if e.encounteredBranch then e.savedBranch else Plus(e.pc, 4), Zeroed(e.regs), e.mem)
  }

  // ----- decoding

  lemma FieldConstants()
    ensures Pow2(5) == 32 && Pow2(6) == 64 && Pow2(11) == 0x800 && Pow2(16) == 0x1_0000
    ensures Pow2(21) == 0x20_0000 && Pow2(26) == 0x400_0000 && Pow2(28) == 0x1000_0000
    ensures Pow2(8) == 0x100 && Pow2(4) == 16 && Pow2(0) == 1
  {
    FieldWidths();
    WordPow2();
    assert Pow2(11) == 0x800;
    assert Pow2(21) == 0x20_0000 by {
      assert Pow2(20) == 0x10_0000;
    }
  }

  lemma RegFieldIs(w: Word, low: nat)
    ensures RegField(w, low) == (w / Pow2(low)) % 32
  {
    FieldConstants();
    ExtractBitsIsDivMod(w, low + 4, low);
  }

  lemma OtherFieldsAre(w: Word)
    ensures ExtractBits(w, 31, 26) == w / 0x400_0000
    ensures ExtractBits(w, 5, 0) == w % 64
    ensures ImmediateField(w) == w % 0x1_0000
    ensures AddressField(w) == w % 0x400_0000
  {
    hide ExtractBits;
    FieldConstants();
    ExtractBitsIsDivMod(w, 31, 26);
    ExtractBitsIsDivMod(w, 5, 0);
    ExtractBitsIsDivMod(w, 15, 0);
    ExtractBitsIsDivMod(w, 25, 0);
  }

  lemma FourTimesWrapped(x: int)
    ensures Wrap(Wrap(x) * 4) == Wrap(4 * x)
  {
    var q, r := x / WORD_SPAN, Wrap(x) * 4;
    DivModUnique(4 * x, WORD_SPAN, r / WORD_SPAN + 4 * q, Wrap(r));
  }

  /** The masks pick the fields of the instruction formats. */
  lemma DecodeIsSplit(info: Info, pc: Word)
    ensures var d, f := Decode(info, pc), Split(info.instruction);
      && d.opcode == f.op && d.rs == f.rs && d.rt == f.rt && d.rd == f.rd
      && d.shamt == f.sa && d.funct == f.funct && d.immediate == f.imm && d.address == f.index
      && d.zeroExtImm == f.imm
      && d.signExtImm == Wrap(SignedImm(f.imm))
      && d.branchAddr == Wrap(4 * SignedImm(f.imm))
      && d.jumpAddr == Region(pc, f.index)
  {
    hide ExtractBits, RegField, ImmediateField, AddressField, SignExt, JumpTarget, Region, SignedImm;
    var w := info.instruction;
    FieldConstants();
    RegFieldIs(w, 21);
    RegFieldIs(w, 16);
    RegFieldIs(w, 11);
    RegFieldIs(w, 6);
    OtherFieldsAre(w);
    SignExtIsSigned(ImmediateField(w));
    FourTimesWrapped(SignedImm(ImmediateField(w)));
    JumpTargetIsRegion(pc, AddressField(w));
  }

  lemma SignExtIsSigned(imm: Half)
    ensures SignExt(imm) == Wrap(SignedImm(imm))
  {
    FieldConstants();
    if imm >= 0x8000 {
      XorDisjoint(0xffff, imm, 16);
      XorCommutes(imm, 0xffff * Pow2(16));
    }
  }

  lemma {:induction false} XorCommutes(a: nat, b: nat)
    ensures Xor(a, b) == Xor(b, a)
    decreases a + b
  {
    if a != 0 && b != 0 {
      XorCommutes(a / 2, b / 2);
    }
  }

  lemma {:induction false} AndHighMask(a: nat, b: nat, k: nat)
    ensures And(a, b * Pow2(k)) == And(Shr(a, k), b) * Pow2(k)
  {
    if k == 0 {
    } else if a == 0 || b == 0 {
      assert Shr(a, k) <= a;
    } else {
      var p := Pow2(k - 1);
      HalfOfDouble(b, p);
      AndHighMask(a / 2, b, k - 1);
      assert b * Pow2(k) > 0;
      Reassociate(And(Shr(a, k), b), p);
    }
  }

  lemma JumpTargetIsRegion(pc: Word, address: Word)
    requires address < 0x400_0000
    ensures JumpTarget(pc, address) == Region(pc, address)
  {
    hide Xor, And, Shr;
    FieldConstants();
    AndHighMask(pc, 15, 28);
    ShrIsDiv(pc, 28);
    AndMask(Shr(pc, 28), 4);
    XorDisjoint(Shr(pc, 28), address * 4, 28);
  }

  // ----- what the emulator's effects mean

  /** An effect as an outcome, with register 0 as the next fetch leaves it. */
  function Meaning(r: Effect): Outcome {
    if r.info.isOverflow then IntegerOverflow
    else if !r.info.isValid then ReservedInstruction
    else if r.branch.Some? then Jump(Zeroed(r.regs), r.mem, r.branch.value)
    else Continue(Zeroed(r.regs), r.mem)
  }

  /** The emulator's own account of an instruction word. */
  function Emulated(w: Word, npc: Word, regs: Gprs, mem: MemState): Outcome {
    Meaning(Execute(Decode(NOP.(instruction := w), npc), npc, regs, mem))
  }

  lemma ZeroedPut(regs: Gprs)
    ensures Zeroed(regs) == regs
    ensures forall i: RegIndex, x: Word {:trigger Put(regs, i, x)} {:trigger regs[i := x]} ::
      Zeroed(regs[i := x]) == Put(regs, i, x)
  {
    assert regs[0 := 0] == regs;
    forall i: RegIndex, x: Word ensures Zeroed(regs[i := x]) == Put(regs, i, x) {
      assert regs[i := x][0 := 0] == Put(regs, i, x);
    }
  }

  /** The operands for which reading a sign after the destination was written matters:
      the destination is a source, and the sum or difference does not fit; or SUB
      writes its second source and the sign of the first is not that of the result. */
  predicate Misjudged(w: Word, regs: Regs) {
    var f := Split(w);
    var a, b := Signed(regs[f.rs]), Signed(regs[f.rt]);
    || (f.op == 0x0 && f.funct == 0x20 && (f.rd == f.rs || f.rd == f.rt) && !Representable(a + b))
    || (f.op == 0x0 && f.funct == 0x22 && f.rd == f.rs && !Representable(a - b))
    || (f.op == 0x0 && f.funct == 0x22 && f.rd == f.rt && f.rd != f.rs && Representable(a - b)
        && (a < 0) != (a - b < 0))
    || (f.op == 0x8 && f.rt == f.rs && !Representable(a + SignedImm(f.imm)))
  }

  /** A halfword or word access at an address that is not a multiple of its size. */
  predicate Misaligned(w: Word, regs: Regs) {
    var f := Split(w);
    var ea := Wrap(regs[f.rs] + SignedImm(f.imm));
    || ((f.op == 0x23 || f.op == 0x2b) && ea % 4 != 0)
    || ((f.op == 0x25 || f.op == 0x29) && ea % 2 != 0)
  }

  lemma SumOverflow(a: Word, b: Word)
    ensures Wrap(Signed(a) + Signed(b)) == Plus(a, b)
    ensures SumSigns(Negative(a), Negative(b), Negative(Plus(a, b))) <==> !Representable(Signed(a) + Signed(b))
  {
  }

  lemma DifferenceOverflow(a: Word, b: Word)
    ensures Wrap(Signed(a) - Signed(b)) == Minus(a, b)
    ensures SumSigns(Negative(a), !Negative(b), Negative(Minus(a, b))) <==> !Representable(Signed(a) - Signed(b))
    ensures Representable(Signed(a) - Signed(b)) ==>
      (Negative(Minus(a, b)) <==> Signed(a) - Signed(b) < 0)
  {
  }

  lemma ImmediateSum(a: Word, imm: Half)
    ensures Plus(a, Wrap(SignedImm(imm))) == Wrap(a + SignedImm(imm))
    ensures Wrap(Signed(a) + SignedImm(imm)) == Wrap(a + SignedImm(imm))
    ensures Signed(Wrap(SignedImm(imm))) == SignedImm(imm)
  {
  }

  lemma BranchTarget(npc: Word, imm: Half)
    ensures Plus(npc, Wrap(4 * SignedImm(imm))) == Wrap(npc + 4 * SignedImm(imm))
  {
  }

  /** A trapping instruction leaves registers and memory alone. */
  lemma TrapKeepsState(d: Info, pc: Word, regs: Regs, mem: MemState)
    requires !Traps(d)
    ensures var r := Execute(d, pc, regs, mem);
      Traps(r.info) ==> r.regs == regs && r.mem == mem && r.branch == None
  {
    hide Read, Write, And, OrWord, XorWord, Pow2, Shr, ExtractBits, Wrap, Plus, Minus;
  }

  /** When the flag of ADD is the overflow of the sum. */
  lemma AddJudged(d: Info, regs: Regs)
    ensures var x := Signed(regs[d.rs]) + Signed(regs[d.rt]);
      && (AddFlag(regs, d) ==> !Representable(x))
      && (!Representable(x) ==> (AddFlag(regs, d) <==> d.rd != d.rs && d.rd != d.rt))
  {
    SumOverflow(regs[d.rs], regs[d.rt]);
  }

  /** When the flag of SUB is the overflow of the difference. */
  lemma SubJudged(d: Info, regs: Regs)
    ensures var a, b := Signed(regs[d.rs]), Signed(regs[d.rt]);
      SubFlag(regs, d) <==>
        if d.rd == d.rs then false
        else if d.rd == d.rt then !Representable(a - b) || (a < 0) != (a - b < 0)
        else !Representable(a - b)
  {
    DifferenceOverflow(regs[d.rs], regs[d.rt]);
  }

  /** When the flag of ADDI is the overflow of the sum. */
  lemma AddiJudged(d: Info, regs: Regs)
    requires d.signExtImm == Wrap(SignedImm(d.immediate))
    ensures var x := Signed(regs[d.rs]) + SignedImm(d.immediate);
      AddiFlag(regs, d) <==> !Representable(x) && d.rt != d.rs
  {
    ImmediateSum(regs[d.rs], d.immediate);
    SumOverflow(regs[d.rs], d.signExtImm);
  }

  lemma RegisterFormMeets(d: Info, f: Fields, w: Word, regs: Gprs, mem: MemState)
    requires !Traps(d) && f == Split(w) && f.op == 0
    requires d.rs == f.rs && d.rt == f.rt && d.rd == f.rd && d.shamt == f.sa && d.funct == f.funct
    ensures Meaning(ExecuteRType(d, regs, mem)) == RegisterForm(f, regs, mem) <==> !Misjudged(w, regs)
  {
    hide And, OrWord, Pow2, Shr, Wrap, Plus, Minus, Split, SignedImm, Signed, AddFlag, SubFlag, Zeroed, Put;
    var a, b := regs[d.rs], regs[d.rt];
    ZeroedPut(regs);
    SumOverflow(a, b);
    DifferenceOverflow(a, b);
    AddJudged(d, regs);
    SubJudged(d, regs);
    ShrIsDiv(b, f.sa);
  }

  lemma ExtractLow(b: Word)
    ensures ExtractBits(b, 7, 0) == b % 0x100 && ExtractBits(b, 15, 0) == b % 0x1_0000
  {
    hide ExtractBits;
    FieldConstants();
    ExtractBitsIsDivMod(b, 7, 0);
    ExtractBitsIsDivMod(b, 15, 0);
  }

  lemma SignTests(a: Word)
    ensures Signed(a) <= 0 <==> a == 0 || Negative(a)
  {
  }

  /** The emulator does what the reference says, for every word, exactly when the operand
      signs it read late were still the right ones and the access was aligned. */
  lemma ExecuteMeetsIsa(w: Word, npc: Word, regs: Gprs, mem: MemState)
    ensures Emulated(w, npc, regs, mem) == Perform(w, npc, regs, mem)
      <==> !Misjudged(w, regs) && !Misaligned(w, regs)
  {
    hide Read, Write, And, OrWord, XorWord, Pow2, Shr, ExtractBits, Wrap, Plus, Minus,
      Decode, Split, ExecuteRType, RegisterForm, Region, SignedImm, Zeroed, Put, AddiFlag, Signed;
    var d, f := Decode(NOP.(instruction := w), npc), Split(w);
    DecodeIsSplit(NOP.(instruction := w), npc);
    DecodeKeepsFlags(NOP.(instruction := w), npc);
    if f.op == 0 {
      RegisterFormMeets(d, f, w, regs, mem);
    } else {
      var a := regs[f.rs];
      ZeroedPut(regs);
      ImmediateSum(a, f.imm);
      AddiJudged(d, regs);
      SignTests(a);
      BranchTarget(npc, f.imm);
      ExtractLow(regs[f.rt]);
      LuiFits(f.imm);
    }
  }

  /** Outside its operations the emulator reserves every word, and only there. */
  lemma UnknownIsReserved(w: Word, npc: Word, regs: Gprs, mem: MemState)
    ensures Emulated(w, npc, regs, mem) == ReservedInstruction <==> !Known(Split(w))
  {
    hide Read, Write, And, OrWord, XorWord, Pow2, Shr, ExtractBits, Wrap, Plus, Minus, Decode, Split,
      SignedImm, Zeroed, AddFlag, SubFlag, AddiFlag, Signed;
    DecodeIsSplit(NOP.(instruction := w), npc);
    DecodeKeepsFlags(NOP.(instruction := w), npc);
  }

  /** The word without what stands in the fields its format fixes at zero. */
  function Cleared(w: Word): Word {
    StrayIsPart(w);
    w - Stray(Split(w))
  }

  lemma StrayIsPart(w: Word)
    ensures Stray(Split(w)) <= w
  {
    hide Split;
    Parts(w);
  }

  /** A known operation with stray bits is executed as the word without them, which the
      manual assigns to that operation. */
  lemma StrayFieldsAreIgnored(w: Word, npc: Word, regs: Gprs, mem: MemState)
    requires Known(Split(w))
    ensures Encoded(Cleared(w)) && Emulated(w, npc, regs, mem) == Emulated(Cleared(w), npc, regs, mem)
  {
    hide Read, Write, And, OrWord, XorWord, Pow2, Shr, ExtractBits, Wrap, Plus, Minus, Decode, Split,
      SignedImm, Zeroed, Signed, Region, ExecuteRType, Cleared, Stray, Known;
    var v := Cleared(w);
    ClearedFields(w);
    StillKnown(Split(w), Split(v));
    var c, d := Decode(NOP.(instruction := w), npc), Decode(NOP.(instruction := v), npc);
    DecodeIsSplit(NOP.(instruction := w), npc);
    DecodeKeepsFlags(NOP.(instruction := w), npc);
    DecodeIsSplit(NOP.(instruction := v), npc);
    DecodeKeepsFlags(NOP.(instruction := v), npc);
    if c.opcode == 0 {
      SameRegisterForm(c, d, regs, mem);
    }
  }

  lemma StillKnown(f: Fields, g: Fields)
    requires Known(f) && SameUsedFields(f, g)
    ensures Known(g)
  {
  }

  lemma SameRegisterForm(c: Info, d: Info, regs: Regs, mem: MemState)
    requires !Traps(c) && !Traps(d) && c.funct == d.funct
    requires c.funct != 0x00 && c.funct != 0x02 ==> c.rs == d.rs
    requires c.funct != 0x08 ==> c.rt == d.rt && c.rd == d.rd
    requires c.funct == 0x00 || c.funct == 0x02 ==> c.shamt == d.shamt
    ensures Meaning(ExecuteRType(c, regs, mem)) == Meaning(ExecuteRType(d, regs, mem))
  {
    hide And, OrWord, Pow2, Shr, Wrap, Plus, Minus, Signed, Zeroed;
  }

  /** The fields that the operation of f uses are the same in g. */
  predicate SameUsedFields(f: Fields, g: Fields) {
    && g.op == f.op
    && (f.op == 0 ==> g.funct == f.funct)
    && (f.op == 0 && f.funct != 0x00 && f.funct != 0x02 ==> g.rs == f.rs)
    && (f.op == 0 && f.funct != 0x08 ==> g.rt == f.rt && g.rd == f.rd)
    && (f.op == 0 && (f.funct == 0x00 || f.funct == 0x02) ==> g.sa == f.sa)
    && (f.op != 0 ==> g.imm == f.imm)
    && (f.op != 0 && f.op != 0xf ==> g.rs == f.rs)
    && (f.op != 0 && f.op != 0x6 && f.op != 0x7 ==> g.rt == f.rt)
    && (f.op == 0x2 || f.op == 0x3 ==> g.index == f.index)
  }

  /** The fields without the stray ones. */
  function Tidied(f: Fields): Fields {
    if f.op == 0x0 && (f.funct == 0x00 || f.funct == 0x02) then f.(rs := 0)
    else if f.op == 0x0 && f.funct == 0x08 then f.(rt := 0, rd := 0)
    else if f.op == 0x0 then f.(sa := 0)
    else if f.op == 0x6 || f.op == 0x7 then f.(rt := 0)
    else if f.op == 0xf then f.(rs := 0)
    else f
  }

  lemma TidiedJoin(f: Fields)
    ensures var g := Tidied(f);
      Join(f.op, f.rs, f.rt, f.rd, f.sa, f.funct) - Stray(f) == Join(g.op, g.rs, g.rt, g.rd, g.sa, g.funct)
    ensures f.op != 0x0 ==> Low(Tidied(f).rd, Tidied(f).sa, Tidied(f).funct) == Low(f.rd, f.sa, f.funct)
    ensures SameUsedFields(f, Tidied(f)) && Stray(Tidied(f)) == 0
  {
  }

  /** Clearing stray fields keeps the ones the operation uses. */
  lemma ClearedFields(w: Word)
    ensures SameUsedFields(Split(w), Split(Cleared(w))) && Stray(Split(Cleared(w))) == 0
  {
    hide Split, Join, Low, Stray, Tidied;
    var f := Split(w);
    var g := Tidied(f);
    Parts(w);
    TidiedJoin(f);
    TidiedKeepsRange(f);
    Joined(g.op, g.rs, g.rt, g.rd, g.sa, g.funct);
    JumpsHaveNoStray(w);
    StrayOfFields(g, Split(Cleared(w)));
  }

  lemma TidiedKeepsRange(f: Fields)
    ensures Tidied(f).op == f.op && Tidied(f).funct == f.funct
  {
  }

  lemma JumpsHaveNoStray(w: Word)
    ensures Split(w).op == 0x2 || Split(w).op == 0x3 ==> Cleared(w) == w
  {
    hide Split;
  }

  lemma StrayOfFields(f: Fields, g: Fields)
    requires g == f.(imm := g.imm, index := g.index)
    ensures Stray(g) == Stray(f)
  {
  }

  function Low(rd: RegIndex, sa: RegIndex, funct: nat): nat {
    rd * 0x800 + sa * 0x40 + funct
  }

  function Join(op: nat, rs: RegIndex, rt: RegIndex, rd: RegIndex, sa: RegIndex, funct: nat): nat {
    op * 0x400_0000 + rs * 0x20_0000 + rt * 0x1_0000 + Low(rd, sa, funct)
  }

  /** A word is the sum of its fields in their places. */
  lemma Parts(w: Word)
    ensures var f := Split(w);
      && f.op < 64 && f.funct < 64
      && f.imm == Low(f.rd, f.sa, f.funct) && w == Join(f.op, f.rs, f.rt, f.rd, f.sa, f.funct)
  {
    Peel(w);
    assert w == (w / 0x40) * 0x40 + w % 64;
    assert w / 0x40 == (w / 0x800) * 32 + (w / 0x40) % 32;
    assert w / 0x800 == (w / 0x1_0000) * 32 + (w / 0x800) % 32;
    assert w / 0x1_0000 == (w / 0x20_0000) * 32 + (w / 0x1_0000) % 32;
    assert w / 0x20_0000 == (w / 0x400_0000) * 32 + (w / 0x20_0000) % 32;
    assert w % 0x1_0000 == w - (w / 0x1_0000) * 0x1_0000;
  }

  /** Dividing one field at a time. */
  lemma Peel(w: Word)
    ensures w / 0x800 == (w / 0x40) / 32 && w / 0x1_0000 == (w / 0x800) / 32
    ensures w / 0x20_0000 == (w / 0x1_0000) / 32 && w / 0x400_0000 == (w / 0x20_0000) / 32
  {
    DivDiv(w, 0x40, 32);
    DivDiv(w, 0x800, 32);
    DivDiv(w, 0x1_0000, 32);
    DivDiv(w, 0x20_0000, 32);
  }

  /** Fields in their places are the fields of the word. */
  lemma Joined(op: nat, rs: RegIndex, rt: RegIndex, rd: RegIndex, sa: RegIndex, funct: nat)
    requires op < 64 && funct < 64
    ensures var w := Join(op, rs, rt, rd, sa, funct);
      && w < WORD_SPAN && Low(rd, sa, funct) < 0x1_0000
      && Split(w) == Fields(op, rs, rt, rd, sa, funct, Low(rd, sa, funct), w % 0x400_0000)
  {
    var w, l := Join(op, rs, rt, rd, sa, funct), Low(rd, sa, funct);
    var q4 := op * 32 + rs;
    var q3 := q4 * 32 + rt;
    var q2 := q3 * 32 + rd;
    var q1 := q2 * 32 + sa;
    assert w == q1 * 0x40 + funct && w == q3 * 0x1_0000 + l && w < WORD_SPAN;
    Peel(w);
    DivModUnique(w, 0x40, q1, funct);
    DivModUnique(q1, 32, q2, sa);
    DivModUnique(q2, 32, q3, rd);
    DivModUnique(q3, 32, q4, rt);
    DivModUnique(q4, 32, op, rs);
    DivModUnique(w, 0x1_0000, q3, l);
  }

  lemma LuiFits(imm: Half)
    ensures Wrap(imm * 0x1_0000) == imm * 0x1_0000
  {
  }

  // ----- where the emulator departs from the manual

  const BOUNDARY: Gprs := seq(32, i => 0)[1 := 0x7fff_ffff][2 := 1][3 := 1][4 := 2]

  /** ADD $1, $1, $2 overflows unnoticed at the largest number. */
  lemma LateSignsMissASum(mem: MemState, npc: Word)
    ensures Perform(0x0022_0820, npc, BOUNDARY, mem) == IntegerOverflow
    ensures Emulated(0x0022_0820, npc, BOUNDARY, mem) != IntegerOverflow
  {
    hide Emulated;
    assert Split(0x0022_0820) == Fields(0, 1, 2, 1, 0, 0x20, 0x0820, 0x22_0820);
    ExecuteMeetsIsa(0x0022_0820, npc, BOUNDARY, mem);
  }

  /** So does ADDI $1, $1, 1. */
  lemma LateSignsMissAnIncrement(mem: MemState, npc: Word)
    ensures Perform(0x2021_0001, npc, BOUNDARY, mem) == IntegerOverflow
    ensures Emulated(0x2021_0001, npc, BOUNDARY, mem) != IntegerOverflow
  {
    hide Emulated;
    assert Split(0x2021_0001) == Fields(8, 1, 1, 0, 0, 1, 1, 0x21_0001);
    ExecuteMeetsIsa(0x2021_0001, npc, BOUNDARY, mem);
  }

  /** SUB $4, $3, $4 traps on 1 - 2. */
  lemma LateSignsTrapADifference(mem: MemState, npc: Word)
    ensures Perform(0x0064_2022, npc, BOUNDARY, mem) != IntegerOverflow
    ensures Emulated(0x0064_2022, npc, BOUNDARY, mem) == IntegerOverflow
  {
    hide Decode, Perform, Emulated, SubFlag;
    var info := NOP.(instruction := 0x0064_2022);
    DecodeIsSplit(info, npc);
    assert Split(0x0064_2022) == Fields(0, 3, 4, 4, 0, 0x22, 0x2022, 0x64_2022);
    SubJudged(Decode(info, npc), BOUNDARY);
    SubTraps(0x0064_2022, npc, BOUNDARY, mem);
    ExecuteMeetsIsa(0x0064_2022, npc, BOUNDARY, mem);
  }

  lemma SubTraps(w: Word, npc: Word, regs: Gprs, mem: MemState)
    requires Split(w).op == 0x0 && Split(w).funct == 0x22
    ensures Emulated(w, npc, regs, mem) == IntegerOverflow <==>
      SubFlag(regs, Decode(NOP.(instruction := w), npc))
  {
    hide Split, Decode, SubFlag, Minus, Zeroed;
    DecodeIsSplit(NOP.(instruction := w), npc);
    DecodeKeepsFlags(NOP.(instruction := w), npc);
  }

  /** The reference raises an address error for exactly the misaligned accesses. */
  lemma MisalignedIsAddressError(w: Word, npc: Word, regs: Gprs, mem: MemState)
    ensures Perform(w, npc, regs, mem) == AddressError <==> Misaligned(w, regs)
  {
    hide Split, Read, Write, Put, And, OrWord, Plus, Minus, Wrap, Pow2, Region, Signed, SignedImm, Quotient;
  }

  lemma MisalignedFields()
    ensures Split(0x8c01_0001) == Fields(0x23, 0, 1, 0, 0, 1, 1, 0x1_0001)
  {
  }

  /** LW $1, 1($0) goes through where the manual raises an address error. */
  lemma MisalignedLoadGoesThrough(w: Word, mem: MemState, npc: Word, regs: Gprs)
    requires w == 0x8c01_0001
    ensures Encoded(w) && Perform(w, npc, regs, mem) == AddressError != Emulated(w, npc, regs, mem)
  {
    hide Emulated, Perform, Misjudged, Split;
    MisalignedFields();
    assert Wrap(regs[0] + 1) == 1;
    ExecuteMeetsIsa(w, npc, regs, mem);
    MisalignedIsAddressError(w, npc, regs, mem);
  }

  /** XOR $1, $2, $3 is reserved, and ROTR $1, $2, 1 is executed as SRL $1, $2, 1. */
  lemma OutsideTheSubset(mem: MemState, npc: Word, regs: Gprs)
    ensures !Encoded(0x0043_0826) && Emulated(0x0043_0826, npc, regs, mem) == ReservedInstruction
    ensures !Encoded(0x0022_0842) && Encoded(0x0002_0842)
    ensures Emulated(0x0022_0842, npc, regs, mem) == Emulated(0x0002_0842, npc, regs, mem)
  {
    hide Emulated;
    assert Split(0x0043_0826) == Fields(0, 2, 3, 1, 0, 0x26, 0x0826, 0x43_0826);
    UnknownIsReserved(0x0043_0826, npc, regs, mem);
    assert Split(0x0022_0842) == Fields(0, 1, 2, 1, 1, 2, 0x0842, 0x22_0842);
    StrayFieldsAreIgnored(0x0022_0842, npc, regs, mem);
  }
}
