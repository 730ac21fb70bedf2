/** The functional emulator: one instruction at a time, with the delayed branch kept
    as a pending flag and a saved target. */
module Emulation {
  import opened Bits
  import opened Memory

  const OP_ZERO: nat := 0x0
  const OP_ADDI: nat := 0x8
  const OP_ADDIU: nat := 0x9
  const OP_ANDI: nat := 0xc
  const OP_BEQ: nat := 0x4
  const OP_BNE: nat := 0x5
  const OP_LBU: nat := 0x24
  const OP_LHU: nat := 0x25
  const OP_LUI: nat := 0xf
  const OP_LW: nat := 0x23
  const OP_ORI: nat := 0xd
  const OP_SLTI: nat := 0xa
  const OP_SLTIU: nat := 0xb
  const OP_SB: nat := 0x28
  const OP_SH: nat := 0x29
  const OP_SW: nat := 0x2b
  const OP_BLEZ: nat := 0x6
  const OP_BGTZ: nat := 0x7
  const OP_J: nat := 0x2
  const OP_JAL: nat := 0x3

  const FUN_ADD: nat := 0x20
  const FUN_ADDU: nat := 0x21
  const FUN_AND: nat := 0x24
  const FUN_JR: nat := 0x08
  const FUN_NOR: nat := 0x27
  const FUN_OR: nat := 0x25
  const FUN_SLT: nat := 0x2a
  const FUN_SLTU: nat := 0x2b
  const FUN_SLL: nat := 0x00
  const FUN_SRL: nat := 0x02
  const FUN_SUB: nat := 0x22
  const FUN_SUBU: nat := 0x23

  const HALT_WORD: Word := 0xfeedfeed
  const EXCEPTION_ADDRESS: Word := 0x8000

  type RegIndex = x: int | 0 <= x < 32
  type Half = x: int | 0 <= x < 0x1_0000
  type Regs = s: seq<Word> | |s| == 32 witness seq(32, i => 0)

  /** The record the emulator makes of one executed instruction. */
  datatype Info = Info(
    pc: Word,
    nextPC: Word,
    isHalt: bool,
    isValid: bool,
    isOverflow: bool,
    instructionID: nat,
    instruction: Word,
    opcode: nat,
    rs: RegIndex,
    rt: RegIndex,
    rd: RegIndex,
    shamt: RegIndex,
    funct: nat,
    immediate: Half,
    address: Word,
    signExtImm: Word,
    zeroExtImm: Word,
    branchAddr: Word,
    jumpAddr: Word,
    loadAddress: Word,
    storeAddress: Word
  )

  /** The record with every field at its default; pipeline bubbles hold it. */
  const NOP: Info :=
    Info(0, 0, false, true, false, 0, 0, 0, 0, 0, 0, 0, 0, 0, 0, 0, 0, 0, 0, 0, 0)

  datatype EmuState = EmuState(
    pc: Word,
    encounteredBranch: bool,
    savedBranch: Word,
    din: nat,
    regs: Regs,
    mem: MemState
  )

  function SignExt(smol: Half): Word {
    if smol >= 0x8000 then XorWord(smol, 0xffff_0000) else smol
  }

  lemma FieldWidths()
    ensures Pow2(5) == 32 && Pow2(6) == 64 && Pow2(16) == 0x1_0000 && Pow2(26) == 0x400_0000
  {
    WordPow2();
    assert Pow2(5) == 32;
    assert Pow2(25) == 0x200_0000;
  }

  function RegField(instruction: Word, low: nat): RegIndex {
    FieldWidths();
    ExtractBits(instruction, low + 4, low)
  }

  function ImmediateField(instruction: Word): Half {
    FieldWidths();
    ExtractBits(instruction, 15, 0)
  }

  function AddressField(instruction: Word): (a: Word)
    ensures a < 0x400_0000
  {
    FieldWidths();
    ExtractBits(instruction, 25, 0)
  }

  function JumpTarget(pc: Word, address: Word): Word {
    XorWord(And(pc, 0xf000_0000), Wrap(address * 4))
  }

  /** The bit-fields of an instruction word; `pc` is already advanced. */
  function Decode(info: Info, pc: Word): Info {
    var instruction := info.instruction;
    var immediate := ImmediateField(instruction);
    var address := AddressField(instruction);
    var signExtImm := SignExt(immediate);
    info.(opcode := ExtractBits(instruction, 31, 26),
          rs := RegField(instruction, 21),
          rt := RegField(instruction, 16),
          rd := RegField(instruction, 11),
          shamt := RegField(instruction, 6),
          funct := ExtractBits(instruction, 5, 0),
          immediate := immediate,
          address := address,
          signExtImm := signExtImm,
          zeroExtImm := immediate,
          branchAddr := Wrap(signExtImm * 4),
          jumpAddr := JumpTarget(pc, address))
  }

  /** What executing a decoded instruction does besides advancing the PC. */
  datatype Effect = Effect(regs: Regs, mem: MemState, branch: Option<Word>, info: Info)

  function Overflows(info: Info): Info {
    info.(isOverflow := true, nextPC := EXCEPTION_ADDRESS)
  }

  function Illegal(info: Info): Info {
    info.(isValid := false, nextPC := EXCEPTION_ADDRESS)
  }

  predicate Traps(info: Info) {
    info.isOverflow || !info.isValid
  }

  /** Overflow of a sum from the signs of the operands and of the result. */
  predicate SumSigns(a: bool, b: bool, sum: bool) {
    (a && b && !sum) || (!a && !b && sum)
  }

  /** ADD, SUB and ADDI write the destination first and read the operand signs after. */
  predicate AddFlag(regs: Regs, d: Info) {
    var r := regs[d.rd := Plus(regs[d.rs], regs[d.rt])];
    SumSigns(Negative(r[d.rs]), Negative(r[d.rt]), Negative(r[d.rd]))
  }

  predicate SubFlag(regs: Regs, d: Info) {
    var r := regs[d.rd := Minus(regs[d.rs], regs[d.rt])];
    SumSigns(Negative(r[d.rs]), !Negative(r[d.rt]), Negative(r[d.rd]))
  }

  predicate AddiFlag(regs: Regs, d: Info) {
    var r := regs[d.rt := Plus(regs[d.rs], d.signExtImm)];
    SumSigns(Negative(r[d.rs]), Negative(d.signExtImm), Negative(r[d.rt]))
  }

  function SetReg(d: Info, regs: Regs, mem: MemState, index: RegIndex, value: Word): Effect {
    Effect(regs[index := value], mem, None, d)
  }

  function SetUnless(flag: bool, d: Info, regs: Regs, mem: MemState, index: RegIndex, value: Word): Effect {
    if flag then Effect(regs, mem, None, Overflows(d)) else SetReg(d, regs, mem, index, value)
  }

  function BranchIf(c: bool, d: Info, regs: Regs, mem: MemState, target: Word): Effect {
    Effect(regs, mem, if c then Some(target) else None, d)
  }

  function ExecuteRType(d: Info, regs: Regs, mem: MemState): Effect {
    var a, b := regs[d.rs], regs[d.rt];
    if d.funct == FUN_ADD then SetUnless(AddFlag(regs, d), d, regs, mem, d.rd, Plus(a, b))
    else if d.funct == FUN_ADDU then SetReg(d, regs, mem, d.rd, Plus(a, b))
    else if d.funct == FUN_AND then SetReg(d, regs, mem, d.rd, And(a, b))
    else if d.funct == FUN_JR then BranchIf(true, d, regs, mem, a)
    else if d.funct == FUN_NOR then SetReg(d, regs, mem, d.rd, NotWord(OrWord(a, b)))
    else if d.funct == FUN_OR then SetReg(d, regs, mem, d.rd, OrWord(a, b))
    else if d.funct == FUN_SLT then SetReg(d, regs, mem, d.rd, Bit(Signed(a) < Signed(b)))
    else if d.funct == FUN_SLTU then SetReg(d, regs, mem, d.rd, Bit(a < b))
    else if d.funct == FUN_SLL then SetReg(d, regs, mem, d.rd, Wrap(b * Pow2(d.shamt)))
    else if d.funct == FUN_SRL then SetReg(d, regs, mem, d.rd, Shr(b, d.shamt))
    else if d.funct == FUN_SUB then SetUnless(SubFlag(regs, d), d, regs, mem, d.rd, Minus(a, b))
    else if d.funct == FUN_SUBU then SetReg(d, regs, mem, d.rd, Minus(a, b))
    else Effect(regs, mem, None, Illegal(d))
  }

  function Load(d: Info, regs: Regs, mem: MemState, size: nat): Effect
    requires size <= 4
  {
    var address := Plus(regs[d.rs], d.signExtImm);
    SetReg(d.(loadAddress := address), regs, mem, d.rt, Read(mem, address, size))
  }

  function Store(d: Info, regs: Regs, mem: MemState, value: Word, size: nat): Effect
    requires size <= 4
  {
    var address := Plus(regs[d.rs], d.signExtImm);
    Effect(regs, Write(mem, address, value, size), None, d.(storeAddress := address))
  }

  /** The effect of a decoded instruction; `pc` is already advanced. */
  function Execute(d: Info, pc: Word, regs: Regs, mem: MemState): Effect {
    FieldWidths(); WordPow2();
    var a, b := regs[d.rs], regs[d.rt];
    var target := Plus(pc, d.branchAddr);
    if d.opcode == OP_ZERO then ExecuteRType(d, regs, mem)
    else if d.opcode == OP_ADDI then SetUnless(AddiFlag(regs, d), d, regs, mem, d.rt, Plus(a, d.signExtImm))
    else if d.opcode == OP_ADDIU then SetReg(d, regs, mem, d.rt, Plus(a, d.signExtImm))
    else if d.opcode == OP_ANDI then SetReg(d, regs, mem, d.rt, And(a, d.zeroExtImm))
    else if d.opcode == OP_BEQ then BranchIf(a == b, d, regs, mem, target)
    else if d.opcode == OP_BNE then BranchIf(a != b, d, regs, mem, target)
    else if d.opcode == OP_BLEZ then BranchIf(a == 0 || Negative(a), d, regs, mem, target)
    else if d.opcode == OP_BGTZ then BranchIf(!Negative(a) && a != 0, d, regs, mem, target)
    else if d.opcode == OP_J then BranchIf(true, d, regs, mem, d.jumpAddr)
    else if d.opcode == OP_JAL then BranchIf(true, d, regs[31 := Plus(pc, 4)], mem, d.jumpAddr)
    else if d.opcode == OP_LBU then Load(d, regs, mem, BYTE_SIZE)
    else if d.opcode == OP_LHU then Load(d, regs, mem, HALF_SIZE)
    else if d.opcode == OP_LUI then SetReg(d, regs, mem, d.rt, Wrap(d.zeroExtImm * 0x1_0000))
    else if d.opcode == OP_LW then Load(d, regs, mem, WORD_SIZE)
    else if d.opcode == OP_ORI then SetReg(d, regs, mem, d.rt, OrWord(a, d.zeroExtImm))
    else if d.opcode == OP_SLTI then SetReg(d, regs, mem, d.rt, Bit(Signed(a) < Signed(d.signExtImm)))
    else if d.opcode == OP_SLTIU then SetReg(d, regs, mem, d.rt, Bit(a < d.signExtImm))
    else if d.opcode == OP_SB then Store(d, regs, mem, ExtractBits(b, 7, 0), BYTE_SIZE)
    else if d.opcode == OP_SH then Store(d, regs, mem, ExtractBits(b, 15, 0), HALF_SIZE)
    else if d.opcode == OP_SW then Store(d, regs, mem, b, WORD_SIZE)
    else Effect(regs, mem, None, Illegal(d))
  }

  /** Fetch: the record before decoding, and the state with the PC advanced, the
      pending branch taken and register 0 reset. */
  function Fetch(e: EmuState): (r: (Info, EmuState)) {
    var instruction := Read(e.mem, e.pc, WORD_SIZE);
    var next := if e.encounteredBranch then e.savedBranch else Plus(e.pc, 4);
    (NOP.(pc := e.pc, nextPC := next, instruction := instruction, instructionID := e.din,
          isHalt := instruction == HALT_WORD),
     e.(pc := next, encounteredBranch := false, regs := e.regs[0 := 0], din := e.din + 1))
  }

  /** One instruction: its record and the state after it. */
  function Step(e: EmuState): (Info, EmuState) {
    var (info, f) := Fetch(e);
    if info.isHalt then (info, f)
    else
      var r := Execute(Decode(info, f.pc), f.pc, f.regs, f.mem);
      (r.info,
       f.(pc := if Traps(r.info) then EXCEPTION_ADDRESS else f.pc,
          encounteredBranch := r.branch.Some?,
          savedBranch := if r.branch.Some? then r.branch.value else f.savedBranch,
          regs := r.regs,
          mem := r.mem))
  }

  lemma FetchIsUndecoded(e: EmuState)
    ensures !Traps(Fetch(e).0) && !Fetch(e).1.encounteredBranch
  {
  }

  lemma DecodeKeepsFlags(info: Info, pc: Word)
    ensures Traps(Decode(info, pc)) == Traps(info)
  {
  }

  lemma ExecuteSplits(d: Info, pc: Word, regs: Regs, mem: MemState)
    ensures d.opcode == OP_ZERO ==> Execute(d, pc, regs, mem) == ExecuteRType(d, regs, mem)
  {
  }

  /** The state after n instructions. */
  function After(e: EmuState, n: nat): EmuState {
    if n == 0 then e else Step(After(e, n - 1)).1
  }

  /** The record of the n-th instruction, counting from zero. */
  function Record(e: EmuState, n: nat): Info {
    Step(After(e, n)).0
  }

  function Boot(mem: MemState): EmuState {
    EmuState(0, false, 0, 0, seq(32, i => 0), mem)
  }
}
