/** What one instruction of the emulator does, said of the instruction word and the state
    before it: result bits, flags of the record, and the memory address. */
module InstructionMeaning {
  import opened Bits
  import opened Memory
  import opened Emulation
  import opened IsaReference
  import opened EmulatorTheorems
  import P = Pipeline

  // ----- the word being executed

  /** The instruction word at the PC. */
  function WordAtPC(e: EmuState): Word {
    Read(e.mem, e.pc, 4)
  }

  /** The fields of the instruction at the PC. */
  function FieldsAtPC(e: EmuState): Fields {
    Split(WordAtPC(e))
  }

  lemma HaltFields()
    ensures Split(0xfeed_feed).op == 0x3f
  {
  }

  /** A step executes what its word decodes to. */
  lemma StepExecutes(e: EmuState)
    requires WordAtPC(e) != 0xfeed_feed
    ensures var (info, f) := Fetch(e);
      var r := Execute(Decode(info, f.pc), f.pc, Zeroed(e.regs), e.mem);
      && Step(e).0 == r.info && Step(e).1.regs == r.regs && Step(e).1.mem == r.mem
      && info.instruction == WordAtPC(e) && !Traps(Decode(info, f.pc))
      && Decode(info, f.pc).opcode == FieldsAtPC(e).op
  {
    hide Read, Decode, Execute, Plus, Split;
    var (info, f) := Fetch(e);
    DecodeKeepsFlags(info, f.pc);
    DecodeIsSplit(info, f.pc);
  }

  /** An instruction is a halt exactly when its word is 0xfeedfeed; a halt is not decoded
      and changes nothing but the PC. */
  lemma HaltIsTheWord(e: EmuState)
    ensures Step(e).0.isHalt <==> WordAtPC(e) == 0xfeed_feed
    ensures Step(e).0.isHalt ==>
      && Step(e).0 == NOP.(pc := e.pc, nextPC := Step(e).1.pc, isHalt := true, instruction := 0xfeed_feed,
                           instructionID := e.din)
      && Step(e).1.regs == Zeroed(e.regs) && Step(e).1.mem == e.mem
  {
    hide Read, Decode, Execute, Plus;
    var (info, f) := Fetch(e);
    if !info.isHalt {
      DecodeKeepsControl(info, f.pc);
      DecodeKeepsFlags(info, f.pc);
      ExecuteKeepsControl(Decode(info, f.pc), f.pc, f.regs, f.mem);
    }
  }

  // ----- result bits

  /** Bit i of the destination of AND, OR, NOR, ANDI and ORI, by bit i of the operands. */
  predicate LogicalBit(f: Fields, before: Regs, after: Regs, i: nat) {
    var a, b := BitSet(before[f.rs], i), BitSet(before[f.rt], i);
    && (f.op == 0x0 && f.funct == 0x24 ==> (BitSet(after[f.rd], i) <==> a && b))
    && (f.op == 0x0 && f.funct == 0x25 ==> (BitSet(after[f.rd], i) <==> a || b))
    && (f.op == 0x0 && f.funct == 0x27 ==> (BitSet(after[f.rd], i) <==> !a && !b))
    && (f.op == 0xc ==> (BitSet(after[f.rt], i) <==> a && BitSet(f.imm, i)))
    && (f.op == 0xd ==> (BitSet(after[f.rt], i) <==> a || BitSet(f.imm, i)))
  }

  /** The logical instructions act on each of the 32 bits. */
  lemma LogicalResult(e: EmuState, i: nat)
    requires i < 32
    ensures LogicalBit(FieldsAtPC(e), Zeroed(e.regs), Step(e).1.regs, i)
  {
    hide Read, Decode, Execute, Step, Fetch, Split, BitSet, And, OrWord, NotWord, Zeroed;
    HaltFields();
    if WordAtPC(e) != 0xfeed_feed {
      StepExecutes(e);
      var (info, next) := Fetch(e);
      var d, regs := Decode(info, next.pc), Zeroed(e.regs);
      DecodeIsSplit(info, next.pc);
      LogicalEffect(d, FieldsAtPC(e), next.pc, regs, e.mem, i);
    }
  }

  lemma LogicalEffect(d: Info, f: Fields, pc: Word, regs: Regs, mem: MemState, i: nat)
    requires i < 32 && d.opcode == f.op && d.funct == f.funct && d.zeroExtImm == f.imm
    requires d.rs == f.rs && d.rt == f.rt && d.rd == f.rd
    ensures LogicalBit(f, regs, Execute(d, pc, regs, mem).regs, i)
  {
    hide Execute, BitSet, And, OrWord, NotWord;
    var a, b := regs[d.rs], regs[d.rt];
    WordBits(a, b, i);
    WordBits(a, d.zeroExtImm, i);
    WordBits(OrWord(a, b), 0, i);
    LogicalOperation(d, pc, regs, mem);
  }

  lemma LogicalOperation(d: Info, pc: Word, regs: Regs, mem: MemState)
    ensures var a, b, after := regs[d.rs], regs[d.rt], Execute(d, pc, regs, mem).regs;
      && (d.opcode == 0x0 && d.funct == 0x24 ==> after[d.rd] == And(a, b))
      && (d.opcode == 0x0 && d.funct == 0x25 ==> after[d.rd] == OrWord(a, b))
      && (d.opcode == 0x0 && d.funct == 0x27 ==> after[d.rd] == NotWord(OrWord(a, b)))
      && (d.opcode == 0xc ==> after[d.rt] == And(a, d.zeroExtImm))
      && (d.opcode == 0xd ==> after[d.rt] == OrWord(a, d.zeroExtImm))
  {
    hide Read, Write, And, OrWord, NotWord, Pow2, Shr, ExtractBits, Wrap, Plus, Minus, AddFlag, SubFlag, AddiFlag,
      Signed;
  }

  /** The destination of the arithmetic, comparison and shift instructions, by the integers
      the operands stand for. */
  predicate ArithmeticValue(f: Fields, before: Regs, after: Regs) {
    var a, b, imm := before[f.rs], before[f.rt], SignedImm(f.imm);
    && (f.op == 0x0 && (f.funct == 0x20 || f.funct == 0x21) ==> after[f.rd] == (a + b) % 0x1_0000_0000)
    && (f.op == 0x0 && (f.funct == 0x22 || f.funct == 0x23) ==> after[f.rd] == (a - b) % 0x1_0000_0000)
    && (f.op == 0x0 && f.funct == 0x2a ==> after[f.rd] == if Signed(a) < Signed(b) then 1 else 0)
    && (f.op == 0x0 && f.funct == 0x2b ==> after[f.rd] == if a < b then 1 else 0)
    && (f.op == 0x0 && f.funct == 0x00 ==> after[f.rd] == (b * Pow2(f.sa)) % 0x1_0000_0000)
    && (f.op == 0x0 && f.funct == 0x02 ==> after[f.rd] == b / Pow2(f.sa))
    && (f.op == 0x8 || f.op == 0x9 ==> after[f.rt] == (a + imm) % 0x1_0000_0000)
    && (f.op == 0xa ==> after[f.rt] == if Signed(a) < imm then 1 else 0)
    && (f.op == 0xb ==> after[f.rt] == if a < imm % 0x1_0000_0000 then 1 else 0)
    && (f.op == 0xf ==> after[f.rt] == f.imm * 0x1_0000)
  }

  /** The arithmetic instructions leave their result modulo 2^32, unless they trap. */
  lemma ArithmeticResult(e: EmuState)
    requires !Step(e).0.isOverflow
    ensures ArithmeticValue(FieldsAtPC(e), Zeroed(e.regs), Step(e).1.regs)
  {
    hide Read, Decode, Execute, Step, Fetch, Split, Zeroed, ArithmeticValue;
    HaltFields();
    if WordAtPC(e) != 0xfeed_feed {
      StepExecutes(e);
      var (info, next) := Fetch(e);
      var d, regs := Decode(info, next.pc), Zeroed(e.regs);
      DecodeIsSplit(info, next.pc);
      ArithmeticEffect(d, FieldsAtPC(e), next.pc, regs, e.mem);
    } else {
      NoArithmetic(FieldsAtPC(e), Zeroed(e.regs), Step(e).1.regs);
    }
  }

  lemma NoArithmetic(f: Fields, before: Regs, after: Regs)
    requires f.op == 0x3f
    ensures ArithmeticValue(f, before, after)
  {
  }

  lemma ArithmeticEffect(d: Info, f: Fields, pc: Word, regs: Regs, mem: MemState)
    requires d.opcode == f.op && d.funct == f.funct && d.zeroExtImm == f.imm && d.shamt == f.sa
    requires d.rs == f.rs && d.rt == f.rt && d.rd == f.rd && d.signExtImm == Wrap(SignedImm(f.imm))
    requires !Execute(d, pc, regs, mem).info.isOverflow
    ensures ArithmeticValue(f, regs, Execute(d, pc, regs, mem).regs)
  {
    hide Execute, ExecuteRType, ArithmeticValue, Wrap;
    if f.op == 0 {
      ExecuteSplits(d, pc, regs, mem);
      RegisterArithmetic(d, f, regs, mem);
    } else {
      ImmediateArithmetic(d, f, pc, regs, mem);
    }
  }

  lemma RegisterArithmetic(d: Info, f: Fields, regs: Regs, mem: MemState)
    requires f.op == 0 && d.funct == f.funct && d.shamt == f.sa
    requires d.rs == f.rs && d.rt == f.rt && d.rd == f.rd
    requires !ExecuteRType(d, regs, mem).info.isOverflow
    ensures ArithmeticValue(f, regs, ExecuteRType(d, regs, mem).regs)
  {
    hide And, OrWord, NotWord, Pow2, Shr, AddFlag, SubFlag, SignedImm, Signed, Wrap, Plus, Minus;
    var a, b := regs[d.rs], regs[d.rt];
    ShrIsDiv(b, d.shamt);
    WordResults(a, b, 0, b * Pow2(d.shamt));
  }

  lemma ImmediateArithmetic(d: Info, f: Fields, pc: Word, regs: Regs, mem: MemState)
    requires f.op != 0 && d.opcode == f.op && d.zeroExtImm == f.imm
    requires d.rs == f.rs && d.rt == f.rt && d.signExtImm == Wrap(SignedImm(f.imm))
    requires !Execute(d, pc, regs, mem).info.isOverflow
    ensures ArithmeticValue(f, regs, Execute(d, pc, regs, mem).regs)
  {
    hide Read, Write, And, OrWord, NotWord, Pow2, Shr, ExtractBits, AddiFlag, SignedImm, Signed, Wrap, Plus, Minus,
      ExecuteRType;
    LuiFits(f.imm);
    ImmediateSum(regs[d.rs], f.imm);
    WordResults(regs[d.rs], 0, SignedImm(f.imm), 0);
  }

  lemma WordResults(a: int, b: int, imm: int, shifted: int)
    ensures Plus(a, b) == (a + b) % 0x1_0000_0000 && Minus(a, b) == (a - b) % 0x1_0000_0000
    ensures Wrap(a + imm) == (a + imm) % 0x1_0000_0000 && Wrap(imm) == imm % 0x1_0000_0000
    ensures Wrap(shifted) == shifted % 0x1_0000_0000
  {
  }

  // ----- flags of the record

  /** Which instructions the emulator reports as overflowing. */
  predicate ReportsOverflow(f: Fields, regs: Gprs) {
    var a, b, imm := Signed(regs[f.rs]), Signed(regs[f.rt]), SignedImm(f.imm);
    || (f.op == 0x0 && f.funct == 0x20 && !Representable(a + b) && f.rd != f.rs && f.rd != f.rt)
    || (f.op == 0x0 && f.funct == 0x22 && f.rd != f.rs
        && (!Representable(a - b) || (f.rd == f.rt && (a < 0) != (a - b < 0))))
    || (f.op == 0x8 && !Representable(a + imm) && f.rt != f.rs)
  }

  /** A record is invalid exactly for a word that is no halt and no known operation, and
      overflowing exactly when ADD, SUB or ADDI is reported so. */
  lemma FlagsOfRecord(e: EmuState)
    ensures Step(e).0.isValid <==> WordAtPC(e) == 0xfeed_feed || Known(FieldsAtPC(e))
    ensures Step(e).0.isOverflow <==> ReportsOverflow(FieldsAtPC(e), Zeroed(e.regs))
  {
    hide Read, Write, Decode, Execute, Step, Plus, Split, Known, AddFlag, SubFlag, AddiFlag, Signed, SignedImm,
      Representable;
    HaltFields();
    HaltIsTheWord(e);
    if WordAtPC(e) != 0xfeed_feed {
      StepExecutes(e);
      var (info, next) := Fetch(e);
      var d, regs := Decode(info, next.pc), Zeroed(e.regs);
      DecodeIsSplit(info, next.pc);
      DecodeKeepsFlags(info, next.pc);
      FlagsOfEffect(d, FieldsAtPC(e), next.pc, regs, e.mem);
      AddJudged(d, regs);
      SubJudged(d, regs);
      AddiJudged(d, regs);
    }
  }

  lemma FlagsOfEffect(d: Info, f: Fields, pc: Word, regs: Regs, mem: MemState)
    requires !Traps(d) && d.opcode == f.op && d.funct == f.funct
    ensures var r := Execute(d, pc, regs, mem).info;
      && (r.isValid <==> Known(f))
      && (r.isOverflow <==>
            || (f.op == 0x0 && f.funct == 0x20 && AddFlag(regs, d))
            || (f.op == 0x0 && f.funct == 0x22 && SubFlag(regs, d))
            || (f.op == 0x8 && AddiFlag(regs, d)))
  {
    hide Read, Write, And, OrWord, NotWord, Pow2, Shr, ExtractBits, Wrap, Plus, Minus, AddFlag, SubFlag, AddiFlag,
      Signed;
  }

  // ----- loads and stores

  /** The opcodes of LW, LBU, LHU and of SB, SH, SW. */
  const LOAD_OPS: set<nat> := {0x23, 0x24, 0x25}
  const STORE_OPS: set<nat> := {0x28, 0x29, 0x2b}

  /** The addresses an instruction accesses: none, or the base register plus the signed
      immediate. */
  function EffectiveAddress(e: EmuState): seq<Word> {
    var f := FieldsAtPC(e);
    if f.op in LOAD_OPS + STORE_OPS then [Wrap(Zeroed(e.regs)[f.rs] + SignedImm(f.imm))] else []
  }

  /** The record of a decoded load or store carries its effective address where the
      pipeline looks for it, and no other record is taken for a load or store. */
  lemma AskedAddress(d: Info, pc: Word, regs: Regs, mem: MemState)
    requires !Traps(d) && d.signExtImm == Wrap(SignedImm(d.immediate))
    ensures var r := Execute(d, pc, regs, mem).info;
      && (P.IsLoad(r) <==> d.opcode in LOAD_OPS) && (P.IsStore(r) <==> d.opcode in STORE_OPS)
      && (P.UsesMemory(r) <==> d.opcode in LOAD_OPS + STORE_OPS)
      && (P.UsesMemory(r) ==> P.DataAddress(r) == Wrap(regs[d.rs] + SignedImm(d.immediate)))
  {
    hide Read, Write, And, OrWord, NotWord, Pow2, Shr, ExtractBits, Wrap, Plus, Minus, AddFlag, SubFlag, AddiFlag,
      Signed, SignedImm, ExecuteRType;
    ImmediateSum(regs[d.rs], d.immediate);
    ExecuteKeepsControl(d, pc, regs, mem);
  }

  /** The record of a step asks the data cache for the effective address of its word. */
  lemma RecordAsks(e: EmuState)
    ensures EffectiveAddress(e) == if P.UsesMemory(Step(e).0) then [P.DataAddress(Step(e).0)] else []
  {
    hide Read, Write, Decode, Execute, Step, Plus, Split, P.UsesMemory, P.DataAddress, Wrap, SignedImm;
    HaltFields();
    HaltIsTheWord(e);
    if WordAtPC(e) == 0xfeed_feed {
      UndecodedAsksNothing(Step(e).0);
    } else {
      StepExecutes(e);
      var (info, next) := Fetch(e);
      DecodeIsSplit(info, next.pc);
      AskedAddress(Decode(info, next.pc), next.pc, Zeroed(e.regs), e.mem);
    }
  }

  lemma UndecodedAsksNothing(x: Info)
    requires x.opcode == 0
    ensures !P.UsesMemory(x)
  {
  }

  /** What an instruction leaves in the registers depends on the memory. */
  ghost predicate ReadsMemory(d: Info) {
    exists pc, regs, m, n :: Execute(d, pc, regs, m).regs != Execute(d, pc, regs, n).regs
  }

  /** An instruction changes the memory in some state. */
  ghost predicate WritesMemory(d: Info) {
    exists pc, regs, m :: Execute(d, pc, regs, m).mem != m
  }

  /** The loads are the instructions that read the memory, the stores those that write it. */
  lemma LoadsReadStoresWrite(d: Info)
    ensures ReadsMemory(d) <==> P.IsLoad(d)
    ensures WritesMemory(d) <==> P.IsStore(d)
    ensures P.IsLoad(d) <==> d.opcode in LOAD_OPS
    ensures P.IsStore(d) <==> d.opcode in STORE_OPS
  {
    hide Execute;
    if ReadsMemory(d) && !P.IsLoad(d) {
      var pc, regs, m, n :| Execute(d, pc, regs, m).regs != Execute(d, pc, regs, n).regs;
      OnlyLoadsRead(d, pc, regs, m, n);
    }
    if WritesMemory(d) && !P.IsStore(d) {
      var pc, regs, m :| Execute(d, pc, regs, m).mem != m;
      OnlyStoresWrite(d, pc, regs, m);
    }
    if P.IsLoad(d) {
      LoadsDiffer(d);
    }
    if P.IsStore(d) {
      StoreChanges(d);
    }
  }

  lemma OnlyLoadsRead(d: Info, pc: Word, regs: Regs, m: MemState, n: MemState)
    requires !P.IsLoad(d)
    ensures Execute(d, pc, regs, m).regs == Execute(d, pc, regs, n).regs
  {
    hide Read, Write, And, OrWord, NotWord, Pow2, Shr, ExtractBits, Wrap, Plus, Minus, AddFlag, SubFlag, AddiFlag,
      Signed;
  }

  lemma OnlyStoresWrite(d: Info, pc: Word, regs: Regs, m: MemState)
    requires !P.IsStore(d)
    ensures Execute(d, pc, regs, m).mem == m
  {
    hide Read, Write, And, OrWord, NotWord, Pow2, Shr, ExtractBits, Wrap, Plus, Minus, AddFlag, SubFlag, AddiFlag,
      Signed;
  }

  /** Four bytes at an address that hold a small value of any size. */
  function Holding(a: Word, size: nat, value: Word): MemState {
    Write(MemState(a, [0, 0, 0, 0]), a, value, size)
  }

  lemma HeldIsRead(a: Word, size: nat, value: Word)
    requires ValidSize(size) && value < 0x100
    ensures Read(Holding(a, size, value), a, size) == value
    ensures InRange(Holding(a, size, value), a, size)
  {
    hide Read, Write;
    var m := MemState(a, [0, 0, 0, 0]);
    FourInRange(m, size);
    SameAvailable(m, Holding(a, size, value), a, size);
    ReadAfterWrite(m, a, value, size);
    SmallModulo(value, size);
  }

  lemma FourInRange(m: MemState, size: nat)
    requires |m.bytes| == 4 && ValidSize(size)
    ensures InRange(m, m.start, size)
  {
    assert forall i: nat :: i < 4 ==> Slot(m, m.start, i) == i;
    assert Available(m, m.start, 1) == 1;
    assert Available(m, m.start, 2) == 2;
    assert Available(m, m.start, 3) == 3;
    assert Available(m, m.start, 4) == 4;
  }

  lemma SmallModulo(value: Word, size: nat)
    requires ValidSize(size) && value < 0x100
    ensures value % Pow2(8 * size) == value
  {
    WordPow2();
  }

  /** The access of a decoded load or store, by its base register. */
  lemma AccessEffect(d: Info, pc: Word, regs: Regs, m: MemState)
    ensures var r, a, size := Execute(d, pc, regs, m), Plus(regs[d.rs], d.signExtImm), AccessSize(d.opcode);
      && (P.IsLoad(d) ==> r.regs == regs[d.rt := Read(m, a, size)])
      && (P.IsStore(d) ==> r.mem == Write(m, a, Truncated(regs[d.rt], size), size))
  {
    hide Read, Write, And, OrWord, NotWord, Pow2, Shr, ExtractBits, Wrap, Plus, Minus, AddFlag, SubFlag, AddiFlag,
      Signed;
    ExtractLow(regs[d.rt]);
  }

  lemma LoadsDiffer(d: Info)
    requires P.IsLoad(d)
    ensures ReadsMemory(d)
  {
    hide Execute, Read, Write, Plus;
    var regs: Regs, size := seq(32, i => 0), AccessSize(d.opcode);
    var a := Plus(regs[d.rs], d.signExtImm);
    var m, n := Holding(a, size, 1), Holding(a, size, 2);
    HeldIsRead(a, size, 1);
    HeldIsRead(a, size, 2);
    AccessEffect(d, 0, regs, m);
    AccessEffect(d, 0, regs, n);
    assert Execute(d, 0, regs, m).regs[d.rt] == 1 && Execute(d, 0, regs, n).regs[d.rt] == 2;
  }

  lemma StoreChanges(d: Info)
    requires P.IsStore(d)
    ensures WritesMemory(d)
  {
    hide Execute, Read, Write, Plus, InRange;
    var regs: Regs, size := seq(32, i => 1), AccessSize(d.opcode);
    var a := Plus(regs[d.rs], d.signExtImm);
    var m := Holding(a, size, 2);
    HeldIsRead(a, size, 2);
    AccessEffect(d, 0, regs, m);
    ReadAfterWrite(m, a, 1, size);
    SmallModulo(1, size);
    assert Execute(d, 0, regs, m).mem != m;
  }
}
