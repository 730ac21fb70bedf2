/** What whole runs of the emulator keep. */
module EmulatorTheorems {
  import opened Bits
  import opened Memory
  import opened Emulation
  import opened IsaReference

  // ----- delay slots

  /** The effect of a decoded instruction does not depend on where its record came from. */
  lemma SameFieldsSameMeaning(c: Info, d: Info, pc: Word, regs: Regs, mem: MemState)
    requires !Traps(c) && !Traps(d) && c.instruction == d.instruction
    ensures Meaning(Execute(Decode(c, pc), pc, regs, mem)) == Meaning(Execute(Decode(d, pc), pc, regs, mem))
  {
    hide Execute;
    DecodeSameFields(c, d, pc);
    FieldsDecideMeaning(Decode(c, pc), Decode(d, pc), pc, regs, mem);
  }

  predicate SameFields(c: Info, d: Info) {
    && c.opcode == d.opcode && c.rs == d.rs && c.rt == d.rt && c.rd == d.rd && c.shamt == d.shamt
    && c.funct == d.funct && c.signExtImm == d.signExtImm && c.zeroExtImm == d.zeroExtImm
    && c.branchAddr == d.branchAddr && c.jumpAddr == d.jumpAddr
  }

  lemma DecodeSameFields(c: Info, d: Info, pc: Word)
    requires c.instruction == d.instruction
    ensures SameFields(Decode(c, pc), Decode(d, pc))
    ensures Traps(Decode(c, pc)) == Traps(c) && Traps(Decode(d, pc)) == Traps(d)
  {
    hide RegField, ImmediateField, AddressField, SignExt, JumpTarget, ExtractBits, Wrap;
  }

  lemma FieldsDecideMeaning(c: Info, d: Info, pc: Word, regs: Regs, mem: MemState)
    requires !Traps(c) && !Traps(d) && SameFields(c, d)
    ensures Meaning(Execute(c, pc, regs, mem)) == Meaning(Execute(d, pc, regs, mem))
  {
    hide Read, Write, And, OrWord, Pow2, Shr, ExtractBits, Wrap, Plus, Minus, ExecuteRType, Signed, AddiFlag;
    if c.opcode == OP_ZERO {
      RegisterFieldsDecideMeaning(c, d, regs, mem);
    }
    assert AddiFlag(regs, c) == AddiFlag(regs, d) by {
      SameAddiFlag(regs, c, d);
    }
  }

  lemma SameAddiFlag(regs: Regs, c: Info, d: Info)
    requires SameFields(c, d)
    ensures AddiFlag(regs, c) == AddiFlag(regs, d)
  {
  }

  lemma RegisterFieldsDecideMeaning(c: Info, d: Info, regs: Regs, mem: MemState)
    requires !Traps(c) && !Traps(d) && SameFields(c, d)
    ensures Meaning(ExecuteRType(c, regs, mem)) == Meaning(ExecuteRType(d, regs, mem))
  {
    hide And, OrWord, Pow2, Shr, Wrap, Plus, Minus, Signed;
  }

  /** The pending flag and saved target carry the same control as two program counters,
      for every instruction in every state: a branch inside a delay slot too, and a
      trap that drops a pending branch. */
  lemma DelaySlotRefinement(e: EmuState)
    ensures Abstract(Step(e).1) == StepWith(Abstract(e), Emulated)
  {
    hide Read, Decode, Execute, Emulated, Plus, Zeroed;
    var (info, f) := Fetch(e);
    FetchZeroes(e);
    if !info.isHalt {
      var d := Decode(info, f.pc);
      DecodeKeepsFlags(info, f.pc);
      TrapKeepsState(d, f.pc, f.regs, f.mem);
      EmulatedIsMeaning(info, f.pc, f.regs, f.mem);
      ExceptionPlus();
    }
  }

  lemma FetchZeroes(e: EmuState)
    ensures Fetch(e).1.regs == Zeroed(e.regs) == Zeroed(Zeroed(e.regs))
  {
    ZeroedPut(Zeroed(e.regs));
  }

  lemma ExceptionPlus()
    ensures Plus(EXCEPTION_ADDRESS, 4) == 0x8004
  {
  }

  lemma EmulatedIsMeaning(info: Info, pc: Word, regs: Gprs, mem: MemState)
    requires !Traps(info)
    ensures Emulated(info.instruction, pc, regs, mem) == Meaning(Execute(Decode(info, pc), pc, regs, mem))
  {
    hide Execute, Decode;
    SameFieldsSameMeaning(NOP.(instruction := info.instruction), info, pc, regs, mem);
  }

  /** The machine with two program counters, run with the emulator's own instructions. */
  function EmulatedRun(s: Arch, n: nat): Arch {
    if n == 0 then s else StepWith(EmulatedRun(s, n - 1), Emulated)
  }

  /** Over every run, the emulator is the machine with two program counters. */
  lemma {:induction false} DelaySlotRun(e: EmuState, n: nat)
    ensures Abstract(After(e, n)) == EmulatedRun(Abstract(e), n)
  {
    hide Step, StepWith, Abstract;
    if n > 0 {
      DelaySlotRun(e, n - 1);
      DelaySlotRefinement(After(e, n - 1));
    }
  }

  /** The next instruction is fetched from a bad address, accesses one, or makes the
      emulator read a sign too late. */
  predicate DepartsNext(e: EmuState) {
    var w := Read(e.mem, e.pc, WORD_SIZE);
    e.pc % 4 != 0 || (w != HALT_WORD && (Misjudged(w, Zeroed(e.regs)) || Misaligned(w, Zeroed(e.regs))))
  }

  /** One step of the emulator is one step of the reference machine. */
  lemma StepMeetsIsa(e: EmuState)
    requires !DepartsNext(e)
    ensures Abstract(Step(e).1) == ArchStep(Abstract(e))
  {
    hide Read, Step, Emulated, Perform, Advance, Plus, Misjudged, Misaligned, Zeroed;
    DelaySlotRefinement(e);
    var s := Abstract(e);
    ExecuteMeetsIsa(Read(s.mem, s.pc, 4), s.npc, s.regs, s.mem);
  }

  /** A whole run of the emulator is a run of the reference machine. */
  lemma {:induction false} RunMeetsIsa(e: EmuState, n: nat)
    requires forall i: nat :: i < n ==> !DepartsNext(After(e, i))
    ensures Abstract(After(e, n)) == ArchRun(Abstract(e), n)
  {
    hide Step, ArchStep, DepartsNext, Abstract;
    if n > 0 {
      RunMeetsIsa(e, n - 1);
      StepMeetsIsa(After(e, n - 1));
    }
  }

  /** Where each record says the next instruction is. */
  lemma NextPCIsNextPc(e: EmuState)
    ensures Step(e).0.nextPC == Step(e).1.pc && Step(e).0.pc == e.pc
    ensures Step(e).0.instructionID == e.din && Step(e).1.din == e.din + 1
  {
    hide Read, Decode, Execute, Plus;
    var (info, f) := Fetch(e);
    if !info.isHalt {
      DecodeKeepsControl(info, f.pc);
      ExecuteKeepsControl(Decode(info, f.pc), f.pc, f.regs, f.mem);
    }
  }

  lemma DecodeKeepsControl(info: Info, pc: Word)
    ensures var d := Decode(info, pc);
      d.pc == info.pc && d.nextPC == info.nextPC && d.instructionID == info.instructionID
      && d.isHalt == info.isHalt && d.instruction == info.instruction && Traps(d) == Traps(info)
      && d.loadAddress == info.loadAddress && d.storeAddress == info.storeAddress
  {
    hide RegField, ImmediateField, AddressField, SignExt, JumpTarget, ExtractBits, Wrap;
  }

  lemma ExecuteKeepsControl(d: Info, pc: Word, regs: Regs, mem: MemState)
    requires !Traps(d)
    ensures var r := Execute(d, pc, regs, mem).info;
      && r.pc == d.pc && r.instructionID == d.instructionID && r.isHalt == d.isHalt
      && r.instruction == d.instruction && r.opcode == d.opcode && r.funct == d.funct
      && r.rs == d.rs && r.rt == d.rt && r.rd == d.rd
      && r.nextPC == (if Traps(r) then EXCEPTION_ADDRESS else d.nextPC)
      && (r.isOverflow ==> r.isValid)
  {
    hide Read, Write, And, OrWord, Pow2, Shr, ExtractBits, Wrap, Plus, Minus, AddFlag, SubFlag, AddiFlag, Signed;
  }

  /** The records of a run are linked: each one's nextPC is the pc of the one after it,
      and they are numbered in order. */
  lemma {:induction false} RecordsAreChained(e: EmuState, n: nat)
    ensures Record(e, n).nextPC == Record(e, n + 1).pc
    ensures Record(e, n).instructionID == e.din + n
    ensures After(e, n).din == e.din + n
  {
    hide Step;
    NextPCIsNextPc(After(e, n));
    NextPCIsNextPc(After(e, n + 1));
    if n > 0 {
      RecordsAreChained(e, n - 1);
      NextPCIsNextPc(After(e, n - 1));
    }
  }

  predicate IsBranchOp(op: nat) {
    op == OP_BEQ || op == OP_BNE || op == OP_BLEZ || op == OP_BGTZ
  }

  /** A taken branch outside a delay slot goes to the address of its delay slot plus the
      shifted offset. */
  lemma TakenBranchTarget(e: EmuState)
    requires !e.encounteredBranch
    ensures var (info, f) := Step(e);
      IsBranchOp(info.opcode) && f.encounteredBranch ==>
        f.savedBranch == Wrap(e.pc + 4 + 4 * SignedImm(info.immediate))
  {
    hide Read, Decode, Execute, SignedImm, Wrap, Plus;
    var (info, f) := Fetch(e);
    if !info.isHalt {
      var d := Decode(info, f.pc);
      DecodeKeepsControl(info, f.pc);
      DecodeIsSplit(info, f.pc);
      BranchEffect(d, f.pc, f.regs, f.mem);
      BranchTarget(f.pc, d.immediate);
      FromDelaySlot(e.pc, 4 * SignedImm(d.immediate));
    }
  }

  lemma FromDelaySlot(pc: Word, offset: int)
    ensures Wrap(Plus(pc, 4) + offset) == Wrap(pc + 4 + offset)
  {
    WrapAdd(pc + 4, offset);
  }

  lemma BranchEffect(d: Info, pc: Word, regs: Regs, mem: MemState)
    requires !Traps(d)
    ensures var r := Execute(d, pc, regs, mem);
      && r.info.opcode == d.opcode && r.info.immediate == d.immediate
      && (IsBranchOp(d.opcode) && r.branch.Some? ==> r.branch.value == Plus(pc, d.branchAddr))
  {
    hide Read, Write, And, OrWord, Pow2, Shr, ExtractBits, Wrap, Plus, Minus, AddFlag, SubFlag, AddiFlag, Signed;
  }

  /** An instruction that overflows or is illegal goes to the exception address, drops any
      pending branch, and leaves registers and memory as they were. */
  lemma TrapLeavesState(e: EmuState)
    ensures var (info, f) := Step(e);
      Traps(info) ==>
        && f.pc == info.nextPC == EXCEPTION_ADDRESS && !f.encounteredBranch
        && f.regs == e.regs[0 := 0] && f.mem == e.mem
  {
    hide Read, Decode, Execute, Plus;
    var (info, f) := Fetch(e);
    NextPCIsNextPc(e);
    if !info.isHalt {
      DecodeKeepsFlags(info, f.pc);
      TrapKeepsState(Decode(info, f.pc), f.pc, f.regs, f.mem);
    }
  }

  // ----- stores and loads along a run

  predicate IsLoadOp(op: nat) {
    op == OP_LBU || op == OP_LHU || op == OP_LW
  }

  predicate IsStoreOp(op: nat) {
    op == OP_SB || op == OP_SH || op == OP_SW
  }

  function AccessSize(op: nat): nat {
    if op == OP_LBU || op == OP_SB then BYTE_SIZE
    else if op == OP_LHU || op == OP_SH then HALF_SIZE
    else WORD_SIZE
  }

  /** The low `size` bytes of a word. */
  function Truncated(value: Word, size: nat): Word {
    if size == BYTE_SIZE then value % 0x100
    else if size == HALF_SIZE then value % 0x1_0000
    else value
  }

  /** Loads and stores are the only instructions that use the memory. */
  lemma ExecuteMemory(d: Info, pc: Word, regs: Regs, mem: MemState)
    requires !Traps(d)
    ensures var r := Execute(d, pc, regs, mem);
      && (IsStoreOp(d.opcode) ==>
            r.mem == Write(mem, r.info.storeAddress, Truncated(regs[d.rt], AccessSize(d.opcode)), AccessSize(d.opcode)))
      && (!IsStoreOp(d.opcode) ==> r.mem == mem)
      && (IsLoadOp(d.opcode) ==>
            r.regs == regs[d.rt := Read(mem, r.info.loadAddress, AccessSize(d.opcode))])
      && (IsLoadOp(d.opcode) || IsStoreOp(d.opcode) ==> !Traps(r.info))
  {
    hide Read, Write, And, OrWord, Pow2, Shr, ExtractBits, Wrap, Plus, Minus, AddFlag, SubFlag, AddiFlag, Signed;
    ExtractLow(regs[d.rt]);
  }

  /** The memory after the store a record describes. */
  function Stored(e: EmuState, info: Info): MemState {
    var size := AccessSize(info.opcode);
    Write(e.mem, info.storeAddress, Truncated(e.regs[0 := 0][info.rt], size), size)
  }

  /** What a record says its instruction did to memory and, for a load, to its register. */
  predicate UsedMemory(e: EmuState, info: Info, f: EmuState) {
    && (IsStoreOp(info.opcode) ==> f.mem == Stored(e, info))
    && (!IsStoreOp(info.opcode) ==> f.mem == e.mem)
    && (IsLoadOp(info.opcode) ==>
          f.regs[info.rt] == Read(e.mem, info.loadAddress, AccessSize(info.opcode)))
  }

  lemma StepMemory(e: EmuState)
    ensures UsedMemory(e, Step(e).0, Step(e).1)
  {
    hide Read, Write, Decode, Execute, Plus, Pow2;
    var (info, f) := Fetch(e);
    if !info.isHalt {
      DecodeKeepsControl(info, f.pc);
      var d := Decode(info, f.pc);
      ExecuteKeepsControl(d, f.pc, f.regs, f.mem);
      ExecuteMemory(d, f.pc, f.regs, f.mem);
    }
  }

  /** A record that stores to none of the bytes of an access. */
  ghost predicate Avoids(info: Info, m: MemState, a: Word, size: nat) {
    IsStoreOp(info.opcode) ==> Disjoint(m, info.storeAddress, AccessSize(info.opcode), a, size)
  }

  lemma {:induction false} ShapeIsKept(e: EmuState, n: nat)
    ensures After(e, n).mem.start == e.mem.start && |After(e, n).mem.bytes| == |e.mem.bytes|
  {
    hide Step;
    if n > 0 {
      ShapeIsKept(e, n - 1);
      StepMemory(After(e, n - 1));
    }
  }

  lemma SameShapeSameDisjoint(m: MemState, m': MemState, a: Word, s: nat, b: Word, t: nat)
    requires m'.start == m.start && Disjoint(m, a, s, b, t)
    ensures Disjoint(m', a, s, b, t)
  {
    forall i, j | 0 <= i < s && 0 <= j < t
      ensures Slot(m', a, i) != Slot(m', b, j)
    {
      assert Slot(m, a, i) != Slot(m, b, j);
    }
  }

  /** Bytes no store touches between two points of a run read the same at both. */
  lemma {:induction false} ReadAlongRun(e: EmuState, i: nat, j: nat, a: Word, size: nat)
    requires i <= j && size <= 4
    requires forall k: nat :: i <= k < j ==> Avoids(Record(e, k), e.mem, a, size)
    ensures Read(After(e, j).mem, a, size) == Read(After(e, i).mem, a, size)
    decreases j
  {
    hide Step, Read, Write, Disjoint;
    if i < j {
      ReadAlongRun(e, i, j - 1, a, size);
      var before := After(e, j - 1);
      var info := Record(e, j - 1);
      StepMemory(before);
      assert Avoids(info, e.mem, a, size);
      if IsStoreOp(info.opcode) {
        var s := AccessSize(info.opcode);
        ShapeIsKept(e, j - 1);
        SameShapeSameDisjoint(e.mem, before.mem, info.storeAddress, s, a, size);
        ReadAfterDisjointWrite(before.mem, info.storeAddress,
          Truncated(before.regs[0 := 0][info.rt], s), s, a, size);
      }
    }
  }

  /** A load that follows a store of the same size to the same address in range, with no
      overlapping store in between, brings back what was stored. */
  lemma LoadSeesStore(e: EmuState, i: nat, j: nat)
    requires i < j
    requires var s, l := Record(e, i), Record(e, j);
      && IsStoreOp(s.opcode) && IsLoadOp(l.opcode)
      && AccessSize(s.opcode) == AccessSize(l.opcode)
      && s.storeAddress == l.loadAddress
      && InRange(e.mem, s.storeAddress, AccessSize(s.opcode))
      && forall k: nat :: i < k < j ==> Avoids(Record(e, k), e.mem, s.storeAddress, AccessSize(s.opcode))
    ensures After(e, j + 1).regs[Record(e, j).rt]
         == Truncated(After(e, i).regs[0 := 0][Record(e, i).rt], AccessSize(Record(e, i).opcode))
  {
    hide Step, Read, Write, Avoids, InRange, Pow2;
    var s, size := Record(e, i), AccessSize(Record(e, i).opcode);
    var v := After(e, i).regs[0 := 0][s.rt];
    StepMemory(After(e, i));
    StepMemory(After(e, j));
    ReadAlongRun(e, i + 1, j, s.storeAddress, size);
    ShapeIsKept(e, i);
    StoredIsRead(e.mem, After(e, i).mem, s.storeAddress, v, size);
  }

  lemma StoredIsRead(m: MemState, m': MemState, a: Word, v: Word, size: nat)
    requires m'.start == m.start && |m'.bytes| == |m.bytes| && ValidSize(size) && InRange(m, a, size)
    ensures Read(Write(m', a, Truncated(v, size), size), a, size) == Truncated(v, size)
  {
    hide Read, Write, Truncated, Available, Pow2;
    SameAvailable(m, m', a, size);
    ReadAfterWrite(m', a, Truncated(v, size), size);
    TruncatedFits(v, size);
  }

  lemma TruncatedFits(v: Word, size: nat)
    requires ValidSize(size)
    ensures Truncated(v, size) % Pow2(8 * size) == Truncated(v, size)
  {
    WordPow2();
  }
}
