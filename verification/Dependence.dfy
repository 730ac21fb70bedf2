/** The hazard tables against what instructions can read and write: they stall for every
    dependency, and for nothing else. */
module Dependence {
  import opened Bits
  import opened Memory
  import opened Emulation
  import opened EmulatorTheorems
  import opened EmulatedProgram
  import M = InstructionMeaning
  import P = Pipeline
  import H = PipelineHistory
  import V = PipelineInvariants
  import T = PipelineTheorems

  // ----- what an operation on given registers depends on

  /** A decoded instruction of the same operation on the same registers; its immediate and
      shift amount are free. */
  predicate SameOperation(d: Info, c: Info) {
    && !Traps(d) && d.opcode == c.opcode && d.funct == c.funct
    && d.rs == c.rs && d.rt == c.rt && d.rd == c.rd
  }

  /** What an instruction does changes with the value of one register. */
  ghost predicate Sensitive(d: Info, r: RegIndex, pc: Word, regs: Regs, mem: MemState, v: Word) {
    !SameEffect(regs, Execute(d, pc, regs, mem), regs[r := v], Execute(d, pc, regs[r := v], mem))
  }

  /** Some instruction of the operation of c, in some state, needs register r. */
  ghost predicate DependsOn(c: Info, r: RegIndex) {
    exists d, pc, regs, mem, v :: SameOperation(d, c) && Sensitive(d, r, pc, regs, mem, v)
  }

  /** Some instruction of the operation of c, in some state, changes register r. */
  ghost predicate CanChange(c: Info, r: RegIndex) {
    exists d, pc, regs, mem :: SameOperation(d, c) && Execute(d, pc, regs, mem).regs[r] != regs[r]
  }

  /** The tables list a register as a source, for a branch or for another instruction. */
  predicate ListedSource(c: Info, r: RegIndex) {
    || ((P.UsesRs(c) || P.IsBranch(c)) && r == c.rs)
    || ((P.UsesRt(c) || P.ComparesTwo(c)) && r == c.rt)
  }

  /** AND and OR of a register with itself into itself. */
  predicate KeepsRegister(c: Info) {
    c.opcode == 0x0 && (c.funct == 0x24 || c.funct == 0x25) && c.rs == c.rt == c.rd
  }

  /** An operation whose two equal sources make its result the same whatever they hold. */
  predicate Cancels(c: Info) {
    && c.rs == c.rt
    && (c.opcode in {0x4, 0x5} || (c.opcode == 0x0 && c.funct in {0x22, 0x23, 0x2a, 0x2b}) || KeepsRegister(c))
  }

  lemma SameOperationSameTables(d: Info, c: Info, r: RegIndex)
    requires SameOperation(d, c)
    ensures ListedSource(d, r) == ListedSource(c, r) && ListedWrite(d, r) == ListedWrite(c, r)
    ensures Cancels(d) == Cancels(c) && KeepsRegister(d) == KeepsRegister(c)
  {
  }

  lemma UnlistedIsInsensitive(d: Info, r: RegIndex, pc: Word, regs: Regs, mem: MemState, v: Word)
    requires !ListedSource(d, r)
    ensures !Sensitive(d, r, pc, regs, mem, v)
  {
    hide Execute, SameEffect, P.UsesRs, P.UsesRt, P.IsBranch, P.ComparesTwo;
    ReadsAreListed(d, pc, regs, regs[r := v], mem);
  }

  lemma CancelledIsInsensitive(d: Info, r: RegIndex, pc: Word, regs: Regs, mem: MemState, v: Word)
    requires Cancels(d)
    ensures !Sensitive(d, r, pc, regs, mem, v)
  {
    hide Read, Write, OrWord, And, Pow2, Shr, ExtractBits, Wrap, Minus, Plus, AddFlag, AddiFlag;
    WithItself(regs[d.rs]);
    WithItself(v);
  }

  lemma WithItself(a: Word)
    ensures And(a, a) == a && OrWord(a, a) == a && Minus(a, a) == 0
  {
    SelfLogic(a);
  }

  lemma {:induction false} SelfLogic(a: nat)
    ensures And(a, a) == a && Or(a, a) == a
  {
    if a > 0 {
      SelfLogic(a / 2);
    }
  }

  // ----- every listed source matters

  /** An instruction of the operation of c, with a small immediate. */
  function Simple(c: Info, imm: Half): (d: Info)
    ensures SameOperation(d, c)
  {
    c.(isValid := true, isOverflow := false, shamt := 1, signExtImm := imm, zeroExtImm := imm)
  }

  /** A register file that holds one value everywhere but in one register. */
  function AllBut(x: Word, r: RegIndex, v: Word): (regs: Regs)
    ensures forall i: RegIndex :: regs[i] == if i == r then v else x
  {
    seq(32, i => x)[r := v]
  }

  lemma ChangedAllBut(x: Word, r: RegIndex, v: Word, v': Word)
    ensures AllBut(x, r, v)[r := v'] == AllBut(x, r, v')
  {
  }

  lemma SmallLogic()
    ensures And(1, 2) == 0 && And(7, 2) == 2 && And(2, 1) == 0 && And(2, 7) == 2 && And(1, 1) == 1 && And(7, 7) == 7
    ensures OrWord(1, 2) == 3 && OrWord(7, 2) == 7 && OrWord(2, 1) == 3 && OrWord(2, 7) == 7
    ensures OrWord(1, 1) == 1 && OrWord(7, 7) == 7
  {
  }

  /** Writing different values to a register is a difference, unless both write what was there. */
  lemma WritesDiffer(a: Regs, x: Effect, b: Regs, y: Effect, q: RegIndex)
    requires x.regs[q] != y.regs[q] && (x.regs[q] != a[q] || y.regs[q] != b[q])
    ensures !SameEffect(a, x, b, y)
  {
  }

  /** For an R-type operation the values 1 and 7, with 2 in every other register, differ in effect. */
  lemma RegisterFormNeeds(d: Info, r: RegIndex, mem: MemState)
    requires d.opcode == 0 && !Traps(d) && d.shamt == 1 && ListedSource(d, r) && !Cancels(d)
    ensures !SameEffect(AllBut(2, r, 1), ExecuteRType(d, AllBut(2, r, 1), mem),
                        AllBut(2, r, 7), ExecuteRType(d, AllBut(2, r, 7), mem))
  {
    hide ExecuteRType, AllBut, SameEffect;
    if d.funct in {FUN_ADD, FUN_ADDU} {
      SumNeeds(d, r, mem);
    } else if d.funct in {FUN_SUB, FUN_SUBU} {
      DifferenceNeeds(d, r, mem);
    } else if d.funct in {FUN_SLT, FUN_SLTU} {
      ComparisonNeeds(d, r, mem);
    } else if d.funct != FUN_JR {
      LogicNeeds(d, r, mem);
    } else {
      JumpNeeds(d, r, mem);
    }
  }

  lemma SumNeeds(d: Info, r: RegIndex, mem: MemState)
    requires d.opcode == 0 && !Traps(d) && ListedSource(d, r) && !Cancels(d)
    requires d.funct in {FUN_ADD, FUN_ADDU}
    ensures !SameEffect(AllBut(2, r, 1), ExecuteRType(d, AllBut(2, r, 1), mem),
                        AllBut(2, r, 7), ExecuteRType(d, AllBut(2, r, 7), mem))
  {
    hide And, OrWord, Pow2, Shr, AllBut, SameEffect, Minus;
    var a, b := AllBut(2, r, 1), AllBut(2, r, 7);
    var x, y := ExecuteRType(d, a, mem), ExecuteRType(d, b, mem);
    if x.info == y.info {
      WritesDiffer(a, x, b, y, d.rd);
    } else {
      InfosDiffer(a, x, b, y);
    }
  }

  lemma DifferenceNeeds(d: Info, r: RegIndex, mem: MemState)
    requires d.opcode == 0 && !Traps(d) && ListedSource(d, r) && !Cancels(d)
    requires d.funct in {FUN_SUB, FUN_SUBU}
    ensures !SameEffect(AllBut(2, r, 1), ExecuteRType(d, AllBut(2, r, 1), mem),
                        AllBut(2, r, 7), ExecuteRType(d, AllBut(2, r, 7), mem))
  {
    hide And, OrWord, Pow2, Shr, AllBut, SameEffect, Plus;
    var a, b := AllBut(2, r, 1), AllBut(2, r, 7);
    var x, y := ExecuteRType(d, a, mem), ExecuteRType(d, b, mem);
    if x.info == y.info {
      WritesDiffer(a, x, b, y, d.rd);
    } else {
      InfosDiffer(a, x, b, y);
    }
  }

  lemma InfosDiffer(a: Regs, x: Effect, b: Regs, y: Effect)
    requires x.info != y.info || x.branch != y.branch || x.mem != y.mem
    ensures !SameEffect(a, x, b, y)
  {
  }

  lemma ComparisonNeeds(d: Info, r: RegIndex, mem: MemState)
    requires d.opcode == 0 && ListedSource(d, r) && !Cancels(d) && d.funct in {FUN_SLT, FUN_SLTU}
    ensures !SameEffect(AllBut(2, r, 1), ExecuteRType(d, AllBut(2, r, 1), mem),
                        AllBut(2, r, 7), ExecuteRType(d, AllBut(2, r, 7), mem))
  {
    hide And, OrWord, Pow2, Shr, AllBut, SameEffect, Plus, Minus, AddFlag, SubFlag;
    var a, b := AllBut(2, r, 1), AllBut(2, r, 7);
    WritesDiffer(a, ExecuteRType(d, a, mem), b, ExecuteRType(d, b, mem), d.rd);
  }

  lemma LogicNeeds(d: Info, r: RegIndex, mem: MemState)
    requires d.opcode == 0 && ListedSource(d, r) && !Cancels(d) && d.shamt == 1
    requires d.funct in {FUN_AND, FUN_OR, FUN_NOR, FUN_SLL, FUN_SRL}
    ensures !SameEffect(AllBut(2, r, 1), ExecuteRType(d, AllBut(2, r, 1), mem),
                        AllBut(2, r, 7), ExecuteRType(d, AllBut(2, r, 7), mem))
  {
    hide And, OrWord, Pow2, Shr, AllBut, SameEffect, Plus, Minus, AddFlag, SubFlag, Signed;
    SmallLogic();
    SmallShifts();
    var a, b := AllBut(2, r, 1), AllBut(2, r, 7);
    WritesDiffer(a, ExecuteRType(d, a, mem), b, ExecuteRType(d, b, mem), d.rd);
  }

  lemma JumpNeeds(d: Info, r: RegIndex, mem: MemState)
    requires d.opcode == 0 && ListedSource(d, r) && d.funct == FUN_JR
    ensures !SameEffect(AllBut(2, r, 1), ExecuteRType(d, AllBut(2, r, 1), mem),
                        AllBut(2, r, 7), ExecuteRType(d, AllBut(2, r, 7), mem))
  {
    hide AllBut;
    var a, b := AllBut(2, r, 1), AllBut(2, r, 7);
    assert ExecuteRType(d, a, mem).branch != ExecuteRType(d, b, mem).branch;
  }

  predicate ImmediateForm(d: Info) {
    d.opcode in {OP_ADDI, OP_ADDIU, OP_ANDI, OP_ORI, OP_SLTI, OP_SLTIU}
  }

  /** The same for operations with an immediate operand, here 2. */
  lemma ImmediateFormNeeds(d: Info, mem: MemState)
    requires !Traps(d) && ImmediateForm(d) && d.signExtImm == d.zeroExtImm == 2
    ensures Sensitive(d, d.rs, 0, AllBut(2, d.rs, 1), mem, 7)
  {
    hide And, OrWord, Pow2, Shr, AllBut, SameEffect, Read, Write, ExtractBits;
    SmallLogic();
    var a, b := AllBut(2, d.rs, 1), AllBut(2, d.rs, 7);
    ChangedAllBut(2, d.rs, 1, 7);
    WritesDiffer(a, Execute(d, 0, a, mem), b, Execute(d, 0, b, mem), d.rt);
  }

  /** A load or store goes to another address. */
  lemma BaseNeeded(d: Info, mem: MemState)
    requires !Traps(d) && P.UsesMemory(d)
    ensures Sensitive(d, d.rs, 0, AllBut(2, d.rs, 1), mem, 7)
  {
    hide AllBut, SameEffect, Read, Write, ExtractBits;
    var a, b := AllBut(2, d.rs, 1), AllBut(2, d.rs, 7);
    ChangedAllBut(2, d.rs, 1, 7);
    assert Plus(1, d.signExtImm) != Plus(7, d.signExtImm);
    InfosDiffer(a, Execute(d, 0, a, mem), b, Execute(d, 0, b, mem));
  }

  /** A store leaves another value. */
  lemma StoredNeeded(d: Info)
    requires P.IsStore(d) && d.rs != d.rt && d.signExtImm == 2
    ensures Sensitive(d, d.rt, 0, AllBut(2, d.rt, 1), M.Holding(4, 1, 0), 7)
  {
    hide AllBut, SameEffect, Execute, Read, Write;
    var a, b := AllBut(2, d.rt, 1), AllBut(2, d.rt, 7);
    var mem, size := M.Holding(4, 1, 0), AccessSize(d.opcode);
    ChangedAllBut(2, d.rt, 1, 7);
    M.AccessEffect(d, 0, a, mem);
    M.AccessEffect(d, 0, b, mem);
    M.FourInRange(mem, size);
    ReadAfterWrite(mem, 4, 1, size);
    ReadAfterWrite(mem, 4, 7, size);
    M.SmallModulo(1, size);
    M.SmallModulo(7, size);
    assert Plus(2, 2) == 4;
    InfosDiffer(a, Execute(d, 0, a, mem), b, Execute(d, 0, b, mem));
  }

  /** A branch is taken for one value and not for another. */
  lemma BranchNeeds(d: Info, r: RegIndex, mem: MemState)
    requires P.IsBranch(d) && ListedSource(d, r) && !Cancels(d)
    ensures Sensitive(d, r, 0, AllBut(2, r, 1), mem, if P.ComparesTwo(d) then 2 else 0)
  {
    hide AllBut, SameEffect, Read, Write, ExtractBits, Plus;
    var v := if P.ComparesTwo(d) then 2 else 0;
    var a, b := AllBut(2, r, 1), AllBut(2, r, v);
    ChangedAllBut(2, r, 1, v);
    InfosDiffer(a, Execute(d, 0, a, mem), b, Execute(d, 0, b, mem));
  }

  /** Every listed source decides the effect of some instruction of the operation, unless
      two equal sources cancel. */
  lemma ListedIsNeeded(c: Info, r: RegIndex)
    requires ListedSource(c, r) && !Cancels(c)
    ensures DependsOn(c, r)
  {
    hide Execute, Sensitive, ListedSource, Cancels, P.UsesRs, P.UsesRt, M.Holding;
    var d, mem := Simple(c, 2), M.Holding(4, 1, 0);
    SameOperationSameTables(d, c, r);
    if d.opcode == 0 {
      RegisterFormNeeds(d, r, mem);
      ExecuteSplits(d, 0, AllBut(2, r, 1), mem);
      ExecuteSplits(d, 0, AllBut(2, r, 7), mem);
      ChangedAllBut(2, r, 1, 7);
      assert Sensitive(d, r, 0, AllBut(2, r, 1), mem, 7) by {
        SensitiveIs(d, r, 0, AllBut(2, r, 1), mem, 7);
      }
    } else if P.IsBranch(d) {
      BranchNeeds(d, r, mem);
    } else if r == d.rs {
      SourceKinds(d, r);
      if ImmediateForm(d) {
        ImmediateFormNeeds(d, mem);
      } else {
        BaseNeeded(d, mem);
      }
    } else {
      SourceKinds(d, r);
      StoredNeeded(d);
    }
  }

  lemma SensitiveIs(d: Info, r: RegIndex, pc: Word, regs: Regs, mem: MemState, v: Word)
    ensures Sensitive(d, r, pc, regs, mem, v)
      <==> !SameEffect(regs, Execute(d, pc, regs, mem), regs[r := v], Execute(d, pc, regs[r := v], mem))
  {
  }

  /** What a listed source can be, outside the R-type operations. */
  lemma SourceKinds(d: Info, r: RegIndex)
    requires ListedSource(d, r) && d.opcode != 0 && !P.IsBranch(d)
    ensures r == d.rs ==> ImmediateForm(d) || P.UsesMemory(d)
    ensures r != d.rs ==> P.IsStore(d) && r == d.rt
  {
  }

  /** The sources the tables list are the registers the operation depends on, exactly. */
  lemma SourcesAreNeeded(c: Info, r: RegIndex)
    ensures DependsOn(c, r) <==> ListedSource(c, r) && !Cancels(c)
  {
    hide Execute, Sensitive, ListedSource, Cancels, ListedWrite;
    if DependsOn(c, r) {
      var d, pc, regs, mem, v :| SameOperation(d, c) && Sensitive(d, r, pc, regs, mem, v);
      SameOperationSameTables(d, c, r);
      if Cancels(d) {
        CancelledIsInsensitive(d, r, pc, regs, mem, v);
      } else if !ListedSource(d, r) {
        UnlistedIsInsensitive(d, r, pc, regs, mem, v);
      }
    }
    if ListedSource(c, r) && !Cancels(c) {
      ListedIsNeeded(c, r);
    }
  }

  // ----- every listed destination is written

  /** The values a destination and every other register get, so that the result differs. */
  function Showing(d: Info): (Word, Word) {
    if (d.opcode == 0 && d.funct in {FUN_AND, FUN_OR, FUN_NOR}) || d.opcode in {OP_ANDI, OP_ORI} then (1, 2)
    else (7, 20)
  }

  function ShowingRegs(d: Info, r: RegIndex): Regs {
    AllBut(Showing(d).1, r, Showing(d).0)
  }

  lemma PairLogic()
    ensures And(1, 2) == 0 && And(2, 1) == 0 && And(2, 2) == 2 && And(1, 1) == 1
    ensures OrWord(1, 2) == 3 && OrWord(2, 1) == 3 && OrWord(2, 2) == 2 && OrWord(1, 1) == 1
  {
  }

  lemma RegisterFormChanges(d: Info, mem: MemState)
    requires d.opcode == 0 && d.shamt == 1 && P.WritesRd(d) && !KeepsRegister(d)
    ensures ExecuteRType(d, ShowingRegs(d, d.rd), mem).regs[d.rd] != ShowingRegs(d, d.rd)[d.rd]
  {
    hide And, OrWord, AllBut;
    PairLogic();
    if d.funct !in {FUN_AND, FUN_OR, FUN_NOR} {
      OtherFormChanges(d, mem);
    }
  }

  lemma OtherFormChanges(d: Info, mem: MemState)
    requires d.opcode == 0 && d.shamt == 1 && P.WritesRd(d) && d.funct !in {FUN_AND, FUN_OR, FUN_NOR}
    ensures ExecuteRType(d, AllBut(20, d.rd, 7), mem).regs[d.rd] != 7
  {
    hide ExecuteRType, AllBut;
    if d.funct == FUN_SLL || d.funct == FUN_SRL {
      ShiftChanges(d, mem);
    } else if d.funct == FUN_SUB {
      DifferenceChanges(d, mem);
    } else {
      SumChanges(d, mem);
    }
  }

  lemma ShiftChanges(d: Info, mem: MemState)
    requires d.shamt == 1 && (d.funct == FUN_SLL || d.funct == FUN_SRL)
    ensures ExecuteRType(d, AllBut(20, d.rd, 7), mem).regs[d.rd] != 7
  {
    hide And, OrWord, AllBut, Pow2, Shr, Plus, Minus, AddFlag, SubFlag, Signed, Wrap;
    SmallShifts();
    assert Wrap(20 * 2) == 40 && Wrap(7 * 2) == 14 by {
      WrapSmall(40);
      WrapSmall(14);
    }
  }

  lemma WrapSmall(x: Word)
    ensures Wrap(x) == x
  {
  }

  lemma DifferenceChanges(d: Info, mem: MemState)
    requires d.funct == FUN_SUB
    ensures ExecuteRType(d, AllBut(20, d.rd, 7), mem).regs[d.rd] != 7
  {
    hide And, OrWord, AllBut, Pow2, Shr, Plus, AddFlag, Signed;
  }

  lemma SumChanges(d: Info, mem: MemState)
    requires d.funct in {FUN_ADD, FUN_ADDU, FUN_SUBU, FUN_SLT, FUN_SLTU}
    ensures ExecuteRType(d, AllBut(20, d.rd, 7), mem).regs[d.rd] != 7
  {
    hide And, OrWord, AllBut, Pow2, Shr, SubFlag, Plus, Minus, Wrap, Signed, AddFlag;
    SmallSums();
    if d.funct == FUN_ADD {
      NoSmallOverflow(d, AllBut(20, d.rd, 7));
    }
  }

  lemma SmallSums()
    ensures Plus(20, 20) == 40 && Plus(20, 7) == Plus(7, 20) == 27 && Plus(7, 7) == 14
    ensures Minus(20, 20) == Minus(7, 7) == 0 && Minus(20, 7) == 13 && Minus(7, 20) == 0xffff_fff3
  {
  }

  lemma NoSmallOverflow(d: Info, regs: Regs)
    requires regs[d.rs] < 0x100 && regs[d.rt] < 0x100
    ensures !AddFlag(regs, d)
  {
  }

  lemma SmallShifts()
    ensures Pow2(1) == 2 && Shr(20, 1) == 10 && Shr(7, 1) == 3 && Shr(1, 1) == 0
  {
  }

  lemma ImmediateFormChanges(d: Info)
    requires P.WritesRt(d) && d.signExtImm == d.zeroExtImm == 2
    ensures Execute(d, 0, ShowingRegs(d, d.rt), MemState(0, [])).regs[d.rt] != ShowingRegs(d, d.rt)[d.rt]
  {
    hide And, OrWord, Pow2, Shr, AllBut, Read, Write, ExtractBits;
    PairLogic();
    NothingIsZero(Plus(7, 2), AccessSize(d.opcode));
    NothingIsZero(Plus(20, 2), AccessSize(d.opcode));
  }

  lemma NothingIsZero(a: Word, size: nat)
    requires ValidSize(size)
    ensures Read(MemState(0, []), a, size) == 0
  {
    assert Available(MemState(0, []), a, size) == 0;
    PartialEmpty(size);
  }

  /** The registers the tables list as written are those the operation can change, except
      the link register of JAL and a register combined with itself by AND or OR. */
  lemma DestinationsAreWritten(c: Info, r: RegIndex)
    ensures CanChange(c, r) <==> (ListedWrite(c, r) && !KeepsRegister(c)) || (c.opcode == 0x3 && r == 31)
  {
    hide Execute, ListedWrite, P.WritesRt, P.WritesRd, KeepsRegister, AllBut;
    if CanChange(c, r) {
      var d, pc, regs, mem :| SameOperation(d, c) && Execute(d, pc, regs, mem).regs[r] != regs[r];
      SameOperationSameTables(d, c, r);
      WritesAreListed(d, pc, regs, mem, r);
      if KeepsRegister(d) {
        KeptIsKept(d, pc, regs, mem, r);
      }
    }
    if c.opcode == 0x3 && r == 31 {
      var d, regs := Simple(c, 2), AllBut(20, 31, 7);
      LinkChanges(d);
      assert Execute(d, 0, regs, MemState(0, [])).regs[r] != regs[r];
    }
    if ListedWrite(c, r) && !KeepsRegister(c) {
      ListedIsChanged(c, r);
    }
  }

  lemma KeptIsKept(d: Info, pc: Word, regs: Regs, mem: MemState, r: RegIndex)
    requires KeepsRegister(d)
    ensures Execute(d, pc, regs, mem).regs[r] == regs[r]
  {
    hide And, OrWord, Pow2, Shr, Plus, Minus, Wrap, Read, Write, ExtractBits;
    WithItself(regs[d.rs]);
  }

  lemma LinkChanges(d: Info)
    requires d.opcode == 0x3
    ensures Execute(d, 0, AllBut(20, 31, 7), MemState(0, [])).regs[31] == 4
  {
    hide And, OrWord, Pow2, Shr, Read, Write, ExtractBits;
  }

  lemma ListedIsChanged(c: Info, r: RegIndex)
    requires ListedWrite(c, r) && !KeepsRegister(c)
    ensures CanChange(c, r)
  {
    hide Execute, ShowingRegs, KeepsRegister, P.WritesRt;
    var d, mem := Simple(c, 2), MemState(0, []);
    SameOperationSameTables(d, c, r);
    if P.WritesRd(d) && r == d.rd {
      RegisterFormChanges(d, mem);
      ExecuteSplits(d, 0, ShowingRegs(d, r), mem);
    } else {
      ImmediateFormChanges(d);
    }
    assert Execute(d, 0, ShowingRegs(d, r), mem).regs[r] != ShowingRegs(d, r)[r];
  }

  // ----- stalls, for a dependency and only for one

  /** An operation has a register as a source: its effect depends on it, or would if its
      two sources were not one register. */
  ghost predicate Needs(c: Info, r: RegIndex) {
    DependsOn(c, r) || (Cancels(c) && r == c.rs)
  }

  /** An operation other than JAL has a register as its destination. */
  ghost predicate Produces(e: Info, r: RegIndex) {
    (CanChange(e, r) && e.opcode != 0x3) || (KeepsRegister(e) && r == e.rd)
  }

  predicate Loads(x: Info, r: RegIndex) {
    x.opcode in M.LOAD_OPS && r == x.rt
  }

  /** BEQ, BNE, BLEZ and BGTZ. */
  const BRANCH_OPS: set<nat> := {0x4, 0x5, 0x6, 0x7}

  lemma NeedsIsListed(c: Info, r: RegIndex)
    ensures Needs(c, r) <==> ListedSource(c, r)
  {
    hide DependsOn;
    SourcesAreNeeded(c, r);
  }

  lemma ProducesIsListed(e: Info, r: RegIndex)
    ensures Produces(e, r) <==> ListedWrite(e, r)
  {
    hide CanChange;
    DestinationsAreWritten(e, r);
  }

  /** What each of the hazard conditions means for the registers of the instructions. */
  lemma HazardsAreDependencies(c: Info, l: Info)
    ensures P.LoadUseHazard(c, l) <==> l.rt != 0 && c.opcode !in BRANCH_OPS && Needs(c, l.rt)
    ensures P.LoadBranchHazard(c, l) <==> l.rt != 0 && c.opcode in BRANCH_OPS && Needs(c, l.rt)
    ensures P.ArithmeticHazard(c, l) <==>
      c.opcode in BRANCH_OPS && exists r: RegIndex :: r != 0 && Needs(c, r) && Produces(l, r)
  {
    hide Needs, Produces;
    forall r: RegIndex ensures Needs(c, r) <==> ListedSource(c, r) {
      NeedsIsListed(c, r);
    }
    forall r: RegIndex ensures Produces(l, r) <==> ListedWrite(l, r) {
      ProducesIsListed(l, r);
    }
    if P.ArithmeticHazard(c, l) {
      var r := if P.WritesRt(l) then l.rt else l.rd;
      assert r != 0 && Needs(c, r) && Produces(l, r);
    }
  }

  /** The instruction in ID must wait: a source of it is loaded in EX, or it is a branch and
      a source of it is produced in EX or loaded in MEM. */
  ghost predicate MustWait(p: P.Latches) {
    exists r: RegIndex :: r != 0 && Needs(p.id, r)
      && (Loads(p.ex, r) || (p.id.opcode in BRANCH_OPS && (Produces(p.ex, r) || Loads(p.mem, r))))
  }

  lemma HazardIsDependency(p: P.Latches)
    ensures P.Hazard(p) <==> MustWait(p)
  {
    hide Needs, Produces, P.LoadUseHazard, P.LoadBranchHazard, P.ArithmeticHazard;
    HazardsAreDependencies(p.id, p.ex);
    HazardsAreDependencies(p.id, p.mem);
    if P.LoadUseNow(p) || P.LoadBranchEx(p) {
      assert Needs(p.id, p.ex.rt);
    }
    if P.LoadBranchMem(p) {
      assert Needs(p.id, p.mem.rt);
    }
    if P.ArithmeticNow(p) {
      var r: RegIndex :| r != 0 && Needs(p.id, r) && Produces(p.ex, r);
    }
  }

  /** A load the instruction in ID waits for, and that instruction, by their numbers. */
  ghost predicate LoadDependency(p: P.Latches, q: (nat, nat)) {
    exists r: RegIndex :: r != 0 && Needs(p.id, r)
      && ((Loads(p.ex, r) && q == (p.ex.instructionID, p.id.instructionID))
          || (p.id.opcode in BRANCH_OPS && Loads(p.mem, r) && q == (p.mem.instructionID, p.id.instructionID)))
  }

  lemma DetectedIsDependency(p: P.Latches, q: (nat, nat))
    ensures q in H.Detected(p) <==> LoadDependency(p, q)
  {
    hide Needs, P.LoadUseHazard, P.LoadBranchHazard;
    HazardsAreDependencies(p.id, p.ex);
    HazardsAreDependencies(p.id, p.mem);
    if q in H.Detected(p) {
      if (P.LoadUseNow(p) || P.LoadBranchEx(p)) && q == (p.ex.instructionID, p.id.instructionID) {
        assert Needs(p.id, p.ex.rt);
      } else {
        assert Needs(p.id, p.mem.rt);
      }
    }
  }

  /** A pair that waited for a load in some state up to the k-th. */
  ghost predicate EverWaited(w: P.World, k: nat, q: (nat, nat)) {
    exists j: nat :: j <= k && LoadDependency(H.RunFor(w, j).m.pipe, q)
  }

  lemma DetectedIsWaited(w: P.World, k: nat, q: (nat, nat))
    ensures T.EverDetected(w, k, q) <==> EverWaited(w, k, q)
  {
    hide H.RunFor, LoadDependency, H.Detected;
    forall j: nat ensures q in H.Detected(H.RunFor(w, j).m.pipe) <==> LoadDependency(H.RunFor(w, j).m.pipe, q) {
      DetectedIsDependency(H.RunFor(w, j).m.pipe, q);
    }
  }

  /** In every state of every run: ID stalls exactly while its instruction must wait, and
      the load stalls are the number of distinct pairs that ever waited for a load. */
  lemma StallsAreDependencies(w: P.World, k: nat)
    requires H.GoodProgram(w.program)
    ensures H.RunFor(w, k).m.flags.idStall <==> MustWait(H.RunFor(w, k).m.pipe)
    ensures H.RunFor(w, k).m.loadStalls == |H.RunFor(w, k).log.pairs|
    ensures forall q :: q in H.RunFor(w, k).log.pairs <==> EverWaited(w, k, q)
  {
    hide H.RunFor, MustWait, P.Hazard, EverWaited, T.EverDetected;
    T.AlwaysTracked(w, k);
    HazardIsDependency(H.RunFor(w, k).m.pipe);
    T.LoadStallsAreDistinct(w, k);
    forall q ensures q in H.RunFor(w, k).log.pairs <==> EverWaited(w, k, q) {
      DetectedIsWaited(w, k, q);
    }
  }

  // ----- registers along a run

  /** A step changes only registers its operation can change. */
  lemma StepChanges(e: EmuState, r: RegIndex)
    requires !CanChange(Step(e).0, r)
    ensures Step(e).1.regs[r] == e.regs[0 := 0][r]
  {
    hide Read, Decode, Execute, Plus;
    var (info, f) := Fetch(e);
    if !info.isHalt {
      var d := Decode(info, f.pc);
      DecodeKeepsFlags(info, f.pc);
      ExecuteKeepsControl(d, f.pc, f.regs, f.mem);
      assert SameOperation(d, Step(e).0);
    }
  }

  /** Booted from any image, a register that no executed operation can change is zero; in
      particular every register is zero at first. */
  lemma {:induction false} UntouchedIsZero(image: MemState, n: nat, r: RegIndex)
    requires forall i: nat :: i < n ==> !CanChange(Record(Boot(image), i), r)
    ensures After(Boot(image), n).regs[r] == 0
  {
    hide Step, CanChange;
    if n > 0 {
      UntouchedIsZero(image, n - 1, r);
      assert !CanChange(Record(Boot(image), n - 1), r);
      StepChanges(After(Boot(image), n - 1), r);
    }
  }
}
