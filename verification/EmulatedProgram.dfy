/** The records the emulator makes are a program the pipeline can run. */
module EmulatedProgram {
  import opened Bits
  import opened Memory
  import opened Emulation
  import opened EmulatorTheorems
  import I = IsaReference
  import P = Pipeline
  import H = PipelineHistory
  import V = PipelineInvariants
  import T = PipelineTheorems

  /** An instruction with these fields is in none of the hazard tables. */
  lemma UnknownIsUnlisted(d: Info, pc: Word, regs: Regs, mem: MemState)
    requires !Traps(d)
    ensures var r := Execute(d, pc, regs, mem).info;
      && (!r.isValid ==> !P.UsesRs(r) && !P.UsesRt(r) && !P.IsBranch(r))
      && (Traps(r) ==> !P.UsesMemory(r))
  {
    hide Read, Write, And, OrWord, Pow2, Shr, ExtractBits, Wrap, Plus, Minus, AddFlag, SubFlag, AddiFlag, Signed,
      ExecuteRType;
    if d.opcode == OP_ZERO {
      UnknownFunctIsUnlisted(d, regs, mem);
    }
  }

  lemma UnknownFunctIsUnlisted(d: Info, regs: Regs, mem: MemState)
    requires !Traps(d) && d.opcode == OP_ZERO
    ensures var r := ExecuteRType(d, regs, mem).info;
      && (!r.isValid ==> !P.UsesRs(r) && !P.UsesRt(r) && !P.IsBranch(r))
      && (Traps(r) ==> !P.UsesMemory(r))
  {
    hide And, OrWord, Pow2, Shr, Wrap, Plus, Minus, AddFlag, SubFlag, Signed;
  }

  /** A record is never mistaken for a bubble once instructions are numbered from the boot. */
  lemma StepIsGood(e: EmuState)
    ensures H.GoodRecord(Step(e).0)
    ensures (e.din == 0 ==> e.pc == 0 && !e.encounteredBranch) ==> Step(e).0 != NOP
  {
    hide Read, Decode, Execute, Plus, H.GoodRecord;
    NextPCIsNextPc(e);
    var (info, f) := Fetch(e);
    if info.isHalt {
      UndecodedIsGood(info);
    } else {
      DecodeKeepsControl(info, f.pc);
      DecodedIsGood(Decode(info, f.pc), f.pc, f.regs, f.mem);
      FirstIsNoBubble(e, Step(e).0, f.pc);
    }
  }

  lemma DecodedIsGood(d: Info, pc: Word, regs: Regs, mem: MemState)
    requires !Traps(d) && !d.isHalt
    ensures H.GoodRecord(Execute(d, pc, regs, mem).info)
  {
    hide Execute, P.UsesRs, P.UsesRt, P.IsBranch, P.UsesMemory;
    ExecuteKeepsControl(d, pc, regs, mem);
    UnknownIsUnlisted(d, pc, regs, mem);
  }

  /** A bubble has number 0 and its own address as the next one. */
  lemma FirstIsNoBubble(e: EmuState, x: Info, next: Word)
    requires x.instructionID == e.din && x.pc == e.pc && (x.nextPC == next || x.nextPC == EXCEPTION_ADDRESS)
    requires next == if e.encounteredBranch then e.savedBranch else Plus(e.pc, 4)
    ensures (e.din == 0 ==> e.pc == 0 && !e.encounteredBranch) ==> x != NOP
  {
  }

  lemma UndecodedIsGood(info: Info)
    requires !Traps(info) && info.opcode == 0 && info.funct == 0 && info.rs == info.rt == info.rd == 0
    ensures H.GoodRecord(info)
  {
  }

  ghost function ProgramOf(mem: MemState): nat -> Info {
    (i: nat) => Record(Boot(mem), i)
  }

  /** Every memory image is a program the pipeline theorems apply to. */
  lemma EveryImageIsAProgram(mem: MemState)
    ensures H.GoodProgram(ProgramOf(mem))
  {
    hide Step, H.GoodRecord;
    forall i: nat
      ensures H.GoodRecord(ProgramOf(mem)(i)) && ProgramOf(mem)(i) != NOP && ProgramOf(mem)(i).instructionID == i
    {
      RecordsAreChained(Boot(mem), i);
      StepIsGood(After(Boot(mem), i));
    }
  }

  // ----- the hazard tables against what instructions do

  /** The tables say that an instruction writes a register. */
  predicate ListedWrite(d: Info, r: RegIndex) {
    (P.WritesRt(d) && r == d.rt) || (P.WritesRd(d) && r == d.rd)
  }

  /** An instruction changes a register that no table lists exactly when it is JAL and the
      register is 31, unless 31 held the link address already. */
  lemma WritesAreListed(d: Info, pc: Word, regs: Regs, mem: MemState, r: RegIndex)
    ensures Execute(d, pc, regs, mem).regs[r] != regs[r] && !ListedWrite(d, r)
      <==> d.opcode == OP_JAL && r == 31 && regs[31] != Plus(pc, 4)
  {
    hide Read, Write, And, OrWord, Pow2, Shr, ExtractBits, Wrap, Plus, Minus, AddFlag, SubFlag, AddiFlag, Signed;
  }

  /** An instruction changes a register in some state. */
  ghost predicate CanWrite(d: Info, r: RegIndex) {
    exists pc, regs, mem :: Execute(d, pc, regs, mem).regs[r] != regs[r]
  }

  lemma CanWriteUnlisted(d: Info, r: RegIndex)
    ensures CanWrite(d, r) && !ListedWrite(d, r) <==> d.opcode == OP_JAL && r == 31
  {
    hide Execute, ListedWrite;
    if CanWrite(d, r) && !ListedWrite(d, r) {
      var pc, regs, mem :| Execute(d, pc, regs, mem).regs[r] != regs[r];
      WritesAreListed(d, pc, regs, mem, r);
    }
    if d.opcode == OP_JAL && r == 31 {
      var e := Boot(MemState(0, []));
      assert Plus(e.pc, 4) == 4 && e.regs[31] == 0;
      WritesAreListed(d, e.pc, e.regs, e.mem, r);
      assert Execute(d, e.pc, e.regs, e.mem).regs[r] != e.regs[r];
    }
  }

  /** Two register files that agree on the sources the tables list. */
  predicate AgreeOnSources(d: Info, a: Regs, b: Regs) {
    && (P.UsesRs(d) || P.IsBranch(d) ==> a[d.rs] == b[d.rs])
    && (P.UsesRt(d) || P.ComparesTwo(d) ==> a[d.rt] == b[d.rt])
  }

  /** Everything an instruction does is the same: its jump, its record, its memory, and each
      register is written alike or not at all. */
  ghost predicate SameEffect(a: Regs, x: Effect, b: Regs, y: Effect) {
    && x.branch == y.branch && x.info == y.info && x.mem == y.mem
    && forall r: RegIndex :: x.regs[r] == y.regs[r] || (x.regs[r] == a[r] && y.regs[r] == b[r])
  }

  lemma FlagsAgree(d: Info, a: Regs, b: Regs)
    requires a[d.rs] == b[d.rs]
    ensures AddiFlag(a, d) == AddiFlag(b, d)
    ensures a[d.rt] == b[d.rt] ==> AddFlag(a, d) == AddFlag(b, d) && SubFlag(a, d) == SubFlag(b, d)
  {
    hide Plus, Minus;
  }

  /** What an instruction does depends on no register but the sources the tables list. */
  lemma ReadsAreListed(d: Info, pc: Word, a: Regs, b: Regs, mem: MemState)
    requires AgreeOnSources(d, a, b)
    ensures SameEffect(a, Execute(d, pc, a, mem), b, Execute(d, pc, b, mem))
  {
    hide Read, Write, And, OrWord, Pow2, Shr, ExtractBits, Wrap, Plus, Minus, AddFlag, SubFlag, AddiFlag, Signed;
    if a[d.rs] == b[d.rs] {
      FlagsAgree(d, a, b);
    }
  }

  /** In every state of every run, what the instruction in EX does is independent of the
      value that a load in MEM brings to its register. */
  lemma NeverNeedsThePendingLoad(w: P.World, k: nat, pc: Word, regs: Regs, mem: MemState, v: Word)
    requires H.GoodProgram(w.program)
    ensures var p := H.RunFor(w, k).m.pipe;
      P.IsLoad(p.mem) && p.mem.rt != 0 ==>
        SameEffect(regs, Execute(p.ex, pc, regs, mem),
                   regs[p.mem.rt := v], Execute(p.ex, pc, regs[p.mem.rt := v], mem))
  {
    hide H.RunFor, Execute, P.UsesRs, P.UsesRt, SameEffect;
    T.HazardsNeverPass(w, k);
    var p := H.RunFor(w, k).m.pipe;
    if P.IsLoad(p.mem) && p.mem.rt != 0 {
      ReadsAreListed(p.ex, pc, regs, regs[p.mem.rt := v], mem);
    }
  }

  /** A register whose new value has not reached WB when a branch is in EX: the tables list
      it as written by the instruction in MEM, or the load in WB brings it. */
  predicate PendingForBranch(p: P.Latches, r: RegIndex) {
    r != 0 && (ListedWrite(p.mem, r) || (P.IsLoad(p.wb) && r == p.wb.rt))
  }

  /** In every state of every run, what a branch in EX does is independent of every such
      register. */
  lemma BranchNeverNeedsPending(w: P.World, k: nat, pc: Word, regs: Regs, mem: MemState, r: RegIndex, v: Word)
    requires H.GoodProgram(w.program)
    ensures var p := H.RunFor(w, k).m.pipe;
      P.IsBranch(p.ex) && PendingForBranch(p, r) ==>
        SameEffect(regs, Execute(p.ex, pc, regs, mem), regs[r := v], Execute(p.ex, pc, regs[r := v], mem))
  {
    hide H.RunFor, Execute, SameEffect, P.WritesRt, P.WritesRd, P.IsLoad;
    T.HazardsNeverPass(w, k);
    var p := H.RunFor(w, k).m.pipe;
    if P.IsBranch(p.ex) && PendingForBranch(p, r) {
      ReadsAreListed(p.ex, pc, regs, regs[r := v], mem);
    }
  }

  /** The boundary of that, in every state of every run: a branch in EX reads a nonzero
      register that the instruction in MEM can change exactly when MEM holds JAL and the
      branch reads register 31. */
  lemma OnlyTheLinkPasses(w: P.World, k: nat)
    requires H.GoodProgram(w.program)
    ensures var p := H.RunFor(w, k).m.pipe;
      (exists r :: P.BranchReads(p.ex, r) && CanWrite(p.mem, r))
        <==> p.mem.opcode == OP_JAL && P.BranchReads(p.ex, 31)
  {
    hide H.RunFor, CanWrite, P.WritesRt, P.WritesRd;
    T.HazardsNeverPass(w, k);
    var p := H.RunFor(w, k).m.pipe;
    forall r: RegIndex ensures CanWrite(p.mem, r) && !ListedWrite(p.mem, r) <==> p.mem.opcode == OP_JAL && r == 31 {
      CanWriteUnlisted(p.mem, r);
    }
  }

  // ----- JAL with a branch on the link register in its delay slot

  /** JAL in EX does not hold back a branch in ID, even one on register 31. */
  lemma JalIsNoHazard(p: P.Latches)
    requires p.ex.opcode == OP_JAL && P.IsBranch(p.id) && !P.IsLoad(p.mem)
    ensures !P.Hazard(p)
  {
  }

  /** Without cache latency, a state without a hazard or a pending squash moves on. */
  lemma MovesOn(w: P.World, k: nat)
    requires H.GoodProgram(w.program) && w.iLatency == 0 && w.dLatency == 0
    requires var m := H.RunFor(w, k).m; !P.Hazard(m.pipe) && m.squashStage == P.NONE
    ensures var m, n := H.RunFor(w, k).m, H.RunFor(w, k + 1).m;
      && n.pipe.id == m.pipe.ifi && n.pipe.ex == m.pipe.id && n.pipe.mem == m.pipe.ex
      && (!m.handlingHalt && !m.handlingException ==>
            n.pipe.ifi == w.program(m.fetched) && n.fetched == m.fetched + 1)
  {
    hide H.RunFor, P.Cycle, V.FullCycle, P.Hazard, P.NoteAll, H.RecordsInv, H.ExceptionInv, H.HaltInv, P.UsesMemory,
      V.NextIDelay, V.NextDDelay;
    T.AlwaysTracked(w, k);
    T.StepOf(w, k);
    V.EarlyExitSkipsNothing(w, H.RunFor(w, k).m);
    V.CycleFields(w, H.RunFor(w, k).m);
  }

  /** The trackers are idle while nothing in flight halts or excepts. */
  lemma TrackersIdle(w: P.World, k: nat)
    requires H.GoodProgram(w.program)
    ensures var m := H.RunFor(w, k).m;
      && (!H.Excepting(m.pipe.ifi) && !H.Excepting(m.pipe.id) ==> !m.handlingException)
      && (!H.Excepting(m.pipe.id) && !H.Excepting(m.pipe.ex) ==> m.squashStage == P.NONE)
      && (m.handlingHalt ==> m.fetched > 0 && w.program(m.fetched - 1).isHalt)
  {
    hide H.RunFor, H.RecordsInv, H.SignalsInv, H.HaltInv, H.OrderInv, H.AccessInv, H.CountInv, H.PatienceInv,
      H.TallyInv, H.ShownInv, H.HazardSafe, H.GoodProgram;
    V.AlwaysInv(w, k);
  }

  lemma JalInIdIsNoHazard(p: P.Latches)
    requires p.id.opcode == OP_JAL
    ensures !P.Hazard(p)
  {
  }

  /** JAL and a branch in its delay slot at the start of a program, with caches that cause
      no delay: after four cycles the branch is in EX and JAL in MEM. */
  lemma BranchFollowsJal(w: P.World)
    requires H.GoodProgram(w.program) && w.iLatency == 0 && w.dLatency == 0
    requires w.program(0).opcode == OP_JAL && P.IsBranch(w.program(1))
    requires !H.Excepting(w.program(0)) && !H.Excepting(w.program(1))
    ensures H.RunFor(w, 4).m.pipe.mem == w.program(0) && H.RunFor(w, 4).m.pipe.ex == w.program(1)
  {
    hide H.RunFor, H.GoodRecord, P.IsBranch, P.Hazard;
    T.FirstStates(w);
    V.NopIsGood();
    V.BubbleIsHarmless(P.Start().pipe);
    MovesOn(w, 0);
    NotHalt(w, 0);
    TrackersIdle(w, 1);
    V.BubbleIsHarmless(H.RunFor(w, 1).m.pipe);
    MovesOn(w, 1);
    TrackersIdle(w, 2);
    JalInIdIsNoHazard(H.RunFor(w, 2).m.pipe);
    MovesOn(w, 2);
    TrackersIdle(w, 3);
    NopIsNoLoad();
    JalIsNoHazard(H.RunFor(w, 3).m.pipe);
    MovesOn(w, 3);
  }

  lemma NopIsNoLoad()
    ensures !P.IsLoad(NOP)
  {
  }

  lemma NotHalt(w: P.World, i: nat)
    requires H.GoodProgram(w.program) && w.program(i).opcode != 0
    ensures !w.program(i).isHalt
  {
    assert H.GoodRecord(w.program(i));
  }

  const JAL_16: Word := 0x0c00_0004
  const BEQ_31_0: Word := 0x13e0_0001

  /** A memory image with JAL 0x10 and, in its delay slot, BEQ $31, $0. */
  const LINK_IMAGE: MemState := MemState(0, [0x0c, 0x00, 0x00, 0x04, 0x13, 0xe0, 0x00, 0x01])

  lemma LinkImageWords()
    ensures Read(LINK_IMAGE, 0, 4) == JAL_16 && Read(LINK_IMAGE, 4, 4) == BEQ_31_0
  {
    hide Read, Available;
    WordAt(LINK_IMAGE, 0);
    WordAt(LINK_IMAGE, 4);
  }

  lemma LinkImageFields()
    ensures I.Split(JAL_16).op == OP_JAL
    ensures I.Split(BEQ_31_0).op == OP_BEQ && I.Split(BEQ_31_0).rs == 31
  {
  }

  /** A word inside a memory that starts at address 0. */
  lemma WordAt(m: MemState, a: nat)
    requires m.start == 0 && a + 4 <= |m.bytes|
    ensures Read(m, a, 4) == (m.bytes[a] as int) * 0x100_0000 + (m.bytes[a + 1] as int) * 0x1_0000
                             + (m.bytes[a + 2] as int) * 0x100 + m.bytes[a + 3]
  {
    hide Read;
    SlotsFrom(m, a);
    AllInRange(m, a);
    PieceAt(m, a, 4);
  }

  lemma SlotsFrom(m: MemState, a: nat)
    requires m.start == 0 && a + 4 <= |m.bytes|
    ensures forall i :: 0 <= i < 4 ==> Slot(m, a, i) == a + i
  {
  }

  lemma AllInRange(m: MemState, a: Word)
    requires forall i :: 0 <= i < 4 ==> Slot(m, a, i) < |m.bytes|
    ensures InRange(m, a, 4)
  {
    hide Slot;
    assert Slot(m, a, 0) < |m.bytes| && Slot(m, a, 1) < |m.bytes| && Slot(m, a, 2) < |m.bytes|;
    assert Available(m, a, 1) == 1;
    assert Available(m, a, 2) == 2;
    assert Available(m, a, 3) == 3;
  }

  /** The record of a word that cannot trap. */
  lemma JumpOrBranchRecord(e: EmuState)
    requires var f := I.Split(Read(e.mem, e.pc, 4)); f.op == OP_JAL || f.op == OP_BEQ
    ensures var f := I.Split(Read(e.mem, e.pc, 4));
      var info := Step(e).0;
      && info.opcode == f.op && info.rs == f.rs && info.rt == f.rt
      && !H.Excepting(info)
      && Step(e).1.mem == e.mem
      && Step(e).1.pc == (if e.encounteredBranch then e.savedBranch else Plus(e.pc, 4))
  {
    hide Read, Decode, Execute, Plus, I.Split;
    var (info, f) := Fetch(e);
    assert I.Split(HALT_WORD).op == 0x3f by {
      HaltOpcode();
    }
    var d := Decode(info, f.pc);
    I.DecodeIsSplit(info, f.pc);
    DecodeKeepsControl(info, f.pc);
    ExecuteKeepsControl(d, f.pc, f.regs, f.mem);
    NeverTraps(d, f.pc, f.regs, f.mem);
  }

  lemma HaltOpcode()
    ensures I.Split(HALT_WORD).op == 0x3f
  {
  }

  lemma NeverTraps(d: Info, pc: Word, regs: Regs, mem: MemState)
    requires !Traps(d) && (d.opcode == OP_JAL || d.opcode == OP_BEQ)
    ensures !Traps(Execute(d, pc, regs, mem).info) && Execute(d, pc, regs, mem).mem == mem
  {
    hide Plus;
  }

  /** A reachable state where a branch in EX reads the link register that JAL in MEM writes:
      the tables do not hold it back. */
  lemma LinkIsReadEarly(w: P.World)
    requires w.program == ProgramOf(LINK_IMAGE) && w.iLatency == 0 && w.dLatency == 0
    ensures var p := H.RunFor(w, 4).m.pipe;
      p.mem.opcode == OP_JAL && P.BranchReads(p.ex, 31) && CanWrite(p.mem, 31)
  {
    hide H.RunFor, Step, Read, I.Split, CanWrite, H.GoodProgram, H.Excepting;
    EveryImageIsAProgram(LINK_IMAGE);
    LinkImageWords();
    LinkImageFields();
    var e := Boot(LINK_IMAGE);
    JumpOrBranchRecord(e);
    FirstTwoRecords(e);
    JumpOrBranchRecord(Step(e).1);
    BranchFollowsJal(w);
    CanWriteUnlisted(w.program(0), 31);
  }

  lemma FirstTwoRecords(e: EmuState)
    ensures Record(e, 0) == Step(e).0 && Record(e, 1) == Step(Step(e).1).0
  {
    hide Step;
    assert After(e, 0) == e;
    assert After(e, 1) == Step(After(e, 0)).1;
  }
}
