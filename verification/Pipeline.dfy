/** The five-stage pipeline as values: one cycle of the simulator, as the composition of
    the steps its loop performs.  What the emulator and the caches answer is given by a
    World: the records of the executed program, and for each cache whether an access
    hits after a given history of accesses. */
module Pipeline {
  import opened Bits
  import opened Emulation

  datatype Stage = IF | ID | EX | MEM | WB | NONE

  datatype World = World(
    program: nat -> Info,
    iHit: (seq<Word>, Word) -> bool,
    dHit: (seq<Word>, Word) -> bool,
    iLatency: nat,
    dLatency: nat
  )

  datatype Latches = Latches(ifi: Info, id: Info, ex: Info, mem: Info, wb: Info)

  /** The words a pipeline dump shows. */
  datatype PipeState = PipeState(
    cycle: nat,
    ifInstr: Word,
    idInstr: Word,
    exInstr: Word,
    memInstr: Word,
    wbInstr: Word
  )

  datatype Flags = Flags(ifStall: bool, idStall: bool, exStall: bool, memStall: bool, wbStall: bool)

  datatype Machine = Machine(
    fetched: nat,
    pipe: Latches,
    shown: PipeState,
    flags: Flags,
    iDelay: nat,
    dDelay: nat,
    handlingHalt: bool,
    handlingException: bool,
    squashStage: Stage,
    iAccesses: seq<Word>,
    dAccesses: seq<Word>,
    lut: seq<(nat, nat)>,
    loadStalls: nat,
    cycleCount: nat
  )

  const NO_STALLS := Flags(false, false, false, false, false)

  function Start(): Machine {
    Machine(0, Latches(NOP, NOP, NOP, NOP, NOP), PipeState(0, 0, 0, 0, 0, 0), NO_STALLS, 0, 0,
            false, false, NONE, [], [], [], 0, 0)
  }

  predicate AnyStall(f: Flags) {
    f.ifStall || f.idStall || f.memStall || f.exStall || f.wbStall
  }

  // ----- step 1: moving the latches

  function Propagate(m: Machine, info: Info): Machine {
    var p, s := m.pipe, m.shown;
    m.(pipe := Latches(info, p.ifi, p.id, p.ex, p.mem),
       shown := PipeState(s.cycle, info.instruction, s.ifInstr, s.idInstr, s.exInstr, s.memInstr))
  }

  /** A stall at a stage holds it and the ones before it, and puts a bubble after it. */
  function Stall(m: Machine, stage: Stage): Machine {
    var p, s := m.pipe, m.shown;
    match stage
    case WB => m
    case MEM =>
      m.(pipe := p.(wb := NOP), shown := s.(wbInstr := 0))
    case EX =>
      m.(pipe := p.(wb := p.mem, mem := NOP), shown := s.(wbInstr := s.memInstr, memInstr := 0))
    case ID =>
      m.(pipe := p.(wb := p.mem, mem := p.ex, ex := NOP),
         shown := s.(wbInstr := s.memInstr, memInstr := s.exInstr, exInstr := 0))
    case IF =>
      m.(pipe := p.(wb := p.mem, mem := p.ex, ex := p.id, id := NOP),
         shown := s.(wbInstr := s.memInstr, memInstr := s.exInstr, exInstr := s.idInstr, idInstr := 0))
    case NONE => m
  }

  function Squash(m: Machine, stage: Stage): Machine {
    var p, s := m.pipe, m.shown;
    match stage
    case WB => m.(pipe := p.(wb := NOP), shown := s.(wbInstr := 0))
    case MEM => m.(pipe := p.(mem := NOP), shown := s.(memInstr := 0))
    case EX => m.(pipe := p.(ex := NOP), shown := s.(exInstr := 0))
    case ID => m.(pipe := p.(id := NOP), shown := s.(idInstr := 0))
    case IF => m.(pipe := p.(ifi := NOP), shown := s.(ifInstr := 0))
    case NONE => m
  }

  /** Fetches unless a halt or an exception is being handled. */
  function Issue(w: World, m: Machine): (r: (Info, Machine)) {
    if m.handlingHalt || m.handlingException then (NOP, m)
    else (w.program(m.fetched), m.(fetched := m.fetched + 1))
  }

  /** The stage whose stall has priority. */
  function StallStage(f: Flags): Stage {
    if f.memStall then MEM else if f.exStall then EX else if f.idStall then ID
    else if f.ifStall then IF else NONE
  }

  function Move(w: World, m: Machine): Machine {
    if AnyStall(m.flags) then Stall(m, StallStage(m.flags))
    else
      var s := Squash(m, m.squashStage).(squashStage := NONE);
      var (info, f) := Issue(w, s);
      Propagate(f, info)
  }

  // ----- step 2: cache accesses

  predicate IsLoad(x: Info) {
    x.opcode == OP_LBU || x.opcode == OP_LHU || x.opcode == OP_LW
  }

  predicate IsStore(x: Info) {
    x.opcode == OP_SB || x.opcode == OP_SH || x.opcode == OP_SW
  }

  predicate UsesMemory(x: Info) {
    IsLoad(x) || IsStore(x)
  }

  function DataAddress(x: Info): Word {
    if IsLoad(x) then x.loadAddress else x.storeAddress
  }

  /** The instruction cache is asked when an instruction was just fetched. */
  function AskInstruction(w: World, m: Machine): Machine {
    if !AnyStall(m.flags) && m.pipe.ifi != NOP
    then m.(iDelay := if w.iHit(m.iAccesses, m.pipe.ifi.pc) then 0 else w.iLatency,
            iAccesses := m.iAccesses + [m.pipe.ifi.pc])
    else m
  }

  /** The data cache is asked when a load or store just entered MEM. */
  function AskData(w: World, m: Machine): Machine {
    if !m.flags.memStall && m.pipe.mem.isValid && m.pipe.mem != NOP && UsesMemory(m.pipe.mem)
    then
      var a := DataAddress(m.pipe.mem);
      m.(dDelay := if w.dHit(m.dAccesses, a) then 0 else w.dLatency, dAccesses := m.dAccesses + [a])
    else m
  }

  function AccessCaches(w: World, m: Machine): Machine {
    AskData(w, AskInstruction(w, m))
  }

  // ----- steps 3 and 4: stall signals

  function SignalMisses(m: Machine): Machine {
    m.(flags := Flags(m.iDelay > 0, false, false, m.dDelay > 0, false))
  }

  predicate ComparesTwo(x: Info) {
    x.opcode == OP_BEQ || x.opcode == OP_BNE
  }

  predicate ComparesOne(x: Info) {
    x.opcode == OP_BGTZ || x.opcode == OP_BLEZ
  }

  predicate IsBranch(x: Info) {
    ComparesTwo(x) || ComparesOne(x)
  }

  /** Instructions that write their rt field, by the table. */
  predicate WritesRt(x: Info) {
    x.opcode in {OP_ADDI, OP_ADDIU, OP_ANDI, OP_LBU, OP_LHU, OP_LUI, OP_LW, OP_ORI, OP_SLTI, OP_SLTIU}
  }

  /** Instructions that write their rd field, by the table. */
  predicate WritesRd(x: Info) {
    x.opcode == OP_ZERO && x.funct in {FUN_ADD, FUN_ADDU, FUN_AND, FUN_NOR, FUN_OR, FUN_SLT, FUN_SLTU,
                                       FUN_SLL, FUN_SRL, FUN_SUB, FUN_SUBU}
  }

  /** Instructions that read their rt field, by the tables. */
  predicate UsesRt(x: Info) {
    || x.opcode in {OP_SB, OP_SH, OP_SW}
    || (x.opcode == OP_ZERO && x.funct in {FUN_ADD, FUN_ADDU, FUN_AND, FUN_NOR, FUN_OR, FUN_SLT, FUN_SLTU,
                                           FUN_SLL, FUN_SRL, FUN_SUB, FUN_SUBU})
  }

  /** Instructions that read their rs field, by the tables. */
  predicate UsesRs(x: Info) {
    || x.opcode in {OP_ADDI, OP_ADDIU, OP_ANDI, OP_ORI, OP_SLTI, OP_SLTIU, OP_LW, OP_SH, OP_SW, OP_LBU,
                    OP_LHU, OP_SB}
    || (x.opcode == OP_ZERO && x.funct in {FUN_ADD, FUN_ADDU, FUN_AND, FUN_JR, FUN_NOR, FUN_OR, FUN_SLT,
                                           FUN_SLTU, FUN_SUB, FUN_SUBU})
  }

  /** The sources of branch `c` include register `r`, which is not register 0. */
  predicate BranchReads(c: Info, r: RegIndex) {
    r != 0 && ((ComparesTwo(c) && (c.rs == r || c.rt == r)) || (ComparesOne(c) && c.rs == r))
  }

  /** A branch depends on the arithmetic result of `e`. */
  predicate ArithmeticHazard(c: Info, e: Info) {
    (WritesRt(e) && BranchReads(c, e.rt)) || (WritesRd(e) && BranchReads(c, e.rd))
  }

  /** A branch depends on the register of the load `l`. */
  predicate LoadBranchHazard(c: Info, l: Info) {
    BranchReads(c, l.rt)
  }

  /** A listed instruction depends on the register of the load `l`. */
  predicate LoadUseHazard(c: Info, l: Info) {
    l.rt != 0 && ((c.rs == l.rt && UsesRs(c)) || (c.rt == l.rt && UsesRt(c)))
  }

  predicate LoadUseNow(p: Latches) {
    IsLoad(p.ex) && LoadUseHazard(p.id, p.ex)
  }

  predicate LoadBranchEx(p: Latches) {
    IsLoad(p.ex) && LoadBranchHazard(p.id, p.ex)
  }

  predicate LoadBranchMem(p: Latches) {
    IsLoad(p.mem) && LoadBranchHazard(p.id, p.mem)
  }

  predicate ArithmeticNow(p: Latches) {
    IsBranch(p.id) && ArithmeticHazard(p.id, p.ex)
  }

  predicate Hazard(p: Latches) {
    LoadUseNow(p) || LoadBranchEx(p) || LoadBranchMem(p) || ArithmeticNow(p)
  }

  /** The load stalls counted, and the dependencies remembered as counted. */
  datatype Tally = Tally(lut: seq<(nat, nat)>, count: nat)

  /** Remembers a dependency, forgetting the oldest of five. */
  function Append(lut: seq<(nat, nat)>, q: (nat, nat)): seq<(nat, nat)> {
    (if |lut| == 5 then lut[1..] else lut) + [q]
  }

  function Note(t: Tally, c: bool, q: (nat, nat)): Tally {
    if c && q !in t.lut then Tally(Append(t.lut, q), t.count + 1) else t
  }

  function NoteAll(t: Tally, p: Latches): Tally {
    var ex, mem := (p.ex.instructionID, p.id.instructionID), (p.mem.instructionID, p.id.instructionID);
    Note(Note(Note(t, LoadUseNow(p), ex), LoadBranchEx(p), ex), LoadBranchMem(p), mem)
  }

  function DetectHazards(m: Machine): Machine {
    var t := NoteAll(Tally(m.lut, m.loadStalls), m.pipe);
    m.(lut := t.lut, loadStalls := t.count, flags := m.flags.(idStall := m.flags.idStall || Hazard(m.pipe)))
  }

  // ----- steps 5 and 6

  function Less1(n: nat): nat {
    if n > 0 then n - 1 else 0
  }

  function CountDown(m: Machine): Machine {
    m.(iDelay := Less1(m.iDelay), dDelay := Less1(m.dDelay))
  }

  function HandleHalt(m: Machine): Machine {
    if m.handlingHalt then m else m.(handlingHalt := m.pipe.ifi.isHalt)
  }

  function HandleException(m: Machine): Machine {
    var e := if m.handlingException then m
      else m.(handlingException := m.pipe.ifi.isOverflow || !m.pipe.ifi.isValid);
    if !e.handlingException then e
    else if !e.pipe.id.isValid then e.(handlingException := false, squashStage := ID)
    else if e.pipe.ex.isOverflow then e.(handlingException := false, squashStage := EX)
    else e
  }

  /** Everything a cycle does after the latches moved. */
  function Settle(w: World, m: Machine): Machine {
    var s := HandleException(HandleHalt(CountDown(DetectHazards(SignalMisses(AccessCaches(w, m))))));
    s.(cycleCount := s.cycleCount + 1)
  }

  /** Whether the cycle that starts in this state ends the run with HALT. */
  predicate Halts(w: World, m: Machine) {
    !AnyStall(m.flags) && Move(w, m).pipe.wb.isHalt
  }

  /** One iteration of the loop of runCycles. */
  function Cycle(w: World, m: Machine): Machine {
    var a := Move(w, m.(shown := m.shown.(cycle := m.cycleCount)));
    if Halts(w, m) then a.(cycleCount := a.cycleCount + 1) else Settle(w, a)
  }
}
