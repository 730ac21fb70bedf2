/** Runs of the pipeline, a log of what they did, and what every state of a run keeps. */
module PipelineHistory {
  import opened Bits
  import opened Emulation
  import opened Pipeline

  // ----- programs

  predicate Excepting(x: Info) {
    x.isOverflow || !x.isValid
  }

  /** What the pipeline relies on in a record: an instruction that excepts is no load or
      store, an invalid one is in no hazard table, and a halt has no decoded fields. */
  predicate GoodRecord(x: Info) {
    && (x.isOverflow ==> x.isValid)
    && (x.isHalt ==> !Excepting(x) && x.opcode == 0 && x.funct == 0 && x.rs == x.rt == x.rd == 0)
    && (!x.isValid ==> !UsesRs(x) && !UsesRt(x) && !IsBranch(x))
    && (Excepting(x) ==> !UsesMemory(x))
  }

  /** A program as the emulator delivers it: numbered records, none of them a bubble. */
  ghost predicate GoodProgram(p: nat -> Info) {
    forall i: nat :: GoodRecord(p(i)) && p(i) != NOP && p(i).instructionID == i
  }

  /** The first n records without the ones that except. */
  function Kept(p: nat -> Info, n: nat): seq<Info> {
    if n == 0 then [] else Kept(p, n - 1) + (if Excepting(p(n - 1)) then [] else [p(n - 1)])
  }

  function Trace(p: nat -> Info, n: nat): seq<Info> {
    if n == 0 then [] else Trace(p, n - 1) + [p(n - 1)]
  }

  function Pcs(p: nat -> Info, n: nat): seq<Word> {
    if n == 0 then [] else Pcs(p, n - 1) + [p(n - 1).pc]
  }

  /** The addresses a sequence of instructions loads from and stores to. */
  function Addresses(s: seq<Info>): seq<Word> {
    if |s| == 0 then []
    else Addresses(s[..|s| - 1]) + (if UsesMemory(s[|s| - 1]) then [DataAddress(s[|s| - 1])] else [])
  }

  /** Cycles an instruction costs besides its own: what it keeps the fetch waiting. */
  function ExtraOf(x: Info): nat {
    if x.isHalt then 4 else if !x.isValid then 1 else if x.isOverflow then 2 else 0
  }

  function Extra(p: nat -> Info, n: nat): nat {
    if n == 0 then 0 else Extra(p, n - 1) + ExtraOf(p(n - 1))
  }

  /** The most stalls in ID an instruction can suffer. */
  function Patience(x: Info): nat {
    if x == NOP then 0 else if IsBranch(x) then 2 else if UsesRs(x) || UsesRt(x) then 1 else 0
  }

  function TotalPatience(p: nat -> Info, n: nat): nat {
    if n == 0 then 0 else TotalPatience(p, n - 1) + Patience(p(n - 1))
  }

  /** The accesses of a history that missed. */
  function CountMisses(hit: (seq<Word>, Word) -> bool, h: seq<Word>): (n: nat)
    ensures n <= |h|
  {
    if |h| == 0 then 0
    else CountMisses(hit, h[..|h| - 1]) + Bit(!hit(h[..|h| - 1], h[|h| - 1]))
  }

  // ----- the log

  datatype Log = Log(
    retired: seq<Info>,     // what entered WB, without bubbles
    ifStalls: nat,          // cycles that stalled at IF
    ifHidden: nat,          // cycles with an instruction miss pending that stalled elsewhere
    idStalls: nat,
    idHere: nat,            // stalls at ID since its instruction came
    patience: nat,          // what the instructions that left ID were entitled to
    memStalls: nat,
    bubbles: nat,           // cycles that moved without fetching
    afterHalt: nat,         // cycles run after the halt had reached WB
    pairs: set<(nat, nat)>, // load dependencies ever detected
    recent: nat             // those counted since the instruction in ID came
  )

  const EMPTY_LOG := Log([], 0, 0, 0, 0, 0, 0, 0, 0, {}, 0)

  function Opt(x: Info): seq<Info> {
    if x == NOP then [] else [x]
  }

  /** The dependencies visible in the latches. */
  function Detected(p: Latches): set<(nat, nat)> {
    (if LoadUseNow(p) || LoadBranchEx(p) then {(p.ex.instructionID, p.id.instructionID)} else {})
    + (if LoadBranchMem(p) then {(p.mem.instructionID, p.id.instructionID)} else {})
  }

  /** The halt has passed WB: nothing is left in the pipeline. */
  predicate Drained(m: Machine) {
    m.handlingHalt && !m.pipe.ifi.isHalt && !m.pipe.id.isHalt && !m.pipe.ex.isHalt && !m.pipe.mem.isHalt
  }

  /** What a cycle from m to n adds to the log. */
  function Observe(m: Machine, n: Machine, l: Log): Log {
    var stage := StallStage(m.flags);
    var leaves := stage == NONE || stage == IF;
    Log(l.retired + Opt(n.pipe.wb),
        l.ifStalls + Bit(stage == IF),
        l.ifHidden + Bit(m.flags.ifStall && stage != IF),
        l.idStalls + Bit(stage == ID),
        if leaves then 0 else l.idHere + Bit(stage == ID),
        l.patience + (if leaves then Patience(m.pipe.id) else 0),
        l.memStalls + Bit(stage == MEM),
        l.bubbles + Bit(stage == NONE && n.fetched == m.fetched && !Drained(m)),
        l.afterHalt + Bit(Drained(m)),
        l.pairs + Detected(n.pipe),
        (if leaves then 0 else l.recent) + (if n.loadStalls >= m.loadStalls then n.loadStalls - m.loadStalls else 0))
  }

  datatype Run = Run(m: Machine, log: Log)

  /** The machine and its log after k cycles. */
  function RunFor(w: World, k: nat): Run {
    if k == 0 then Run(Start(), EMPTY_LOG)
    else
      var r := RunFor(w, k - 1);
      var n := Cycle(w, r.m);
      Run(n, Observe(r.m, n, r.log))
  }

  // ----- what every state of a run keeps

  /** A latch holds a bubble or the record of an executed instruction. */
  ghost predicate Executed(w: World, m: Machine, x: Info) {
    x == NOP || (x.instructionID < m.fetched && x == w.program(x.instructionID))
  }

  ghost predicate RecordsInv(w: World, m: Machine) {
    && Executed(w, m, m.pipe.ifi) && Executed(w, m, m.pipe.id) && Executed(w, m, m.pipe.ex)
    && Executed(w, m, m.pipe.mem) && Executed(w, m, m.pipe.wb)
    && (m.pipe.ifi != NOP ==> m.pipe.ifi.instructionID == m.fetched - 1)
    && (m.pipe.id != NOP && m.pipe.ifi != NOP ==> m.pipe.id.instructionID < m.fetched - 1)
  }

  /** The stall signals say exactly what is pending. */
  ghost predicate SignalsInv(w: World, m: Machine) {
    && !m.flags.exStall && !m.flags.wbStall
    && (m.flags.idStall <==> Hazard(m.pipe))
    && (m.flags.ifStall ==> m.pipe.ifi != NOP)
    && (m.flags.memStall ==> m.pipe.mem != NOP && UsesMemory(m.pipe.mem))
    && (!m.flags.ifStall ==> m.iDelay == 0)
    && (!m.flags.memStall ==> m.dDelay == 0)
    && RemainingI(m) <= w.iLatency && RemainingD(m) <= w.dLatency
  }

  /** Cycles until a pending miss is served. */
  function RemainingI(m: Machine): nat {
    m.iDelay + Bit(m.flags.ifStall)
  }

  function RemainingD(m: Machine): nat {
    m.dDelay + Bit(m.flags.memStall)
  }

  /** At most one excepting instruction is in flight, nothing is behind it, and the
      tracker knows where it is. */
  predicate ExceptionInv(m: Machine) {
    var p := m.pipe;
    && !Excepting(p.mem) && !Excepting(p.wb)
    && (Excepting(p.ifi) ==> !Excepting(p.id) && !Excepting(p.ex))
    && (Excepting(p.id) ==> p.ifi == NOP && !Excepting(p.ex) && !(p.id.isOverflow && !p.id.isValid))
    && (Excepting(p.ex) ==> p.ifi == NOP && p.id == NOP && p.ex.isOverflow)
    && (m.handlingException <==> Excepting(p.ifi) || p.id.isOverflow)
    && m.squashStage == (if !p.id.isValid then ID else if p.ex.isOverflow then EX else NONE)
  }

  /** A halt is tracked from its fetch; nothing is behind it. */
  predicate HaltInv(m: Machine) {
    var p := m.pipe;
    && (!m.handlingHalt ==> !p.ifi.isHalt && !p.id.isHalt && !p.ex.isHalt && !p.mem.isHalt && !p.wb.isHalt)
    && (m.handlingHalt ==> !Excepting(p.ifi) && !Excepting(p.id) && !Excepting(p.ex))
    && (p.ifi.isHalt ==> !p.id.isHalt && !p.ex.isHalt && !p.mem.isHalt && !p.wb.isHalt)
    && (p.id.isHalt ==> p.ifi == NOP && !p.ex.isHalt && !p.mem.isHalt && !p.wb.isHalt)
    && (p.ex.isHalt ==> p.ifi == p.id == NOP && !p.mem.isHalt && !p.wb.isHalt)
    && (p.mem.isHalt ==> p.ifi == p.id == p.ex == NOP && !p.wb.isHalt)
    && (Drained(m) ==> p.ifi == p.id == p.ex == p.mem == NOP)
  }

  /** The halt tracker tells whether the last executed instruction was the first halt. */
  ghost predicate FirstHaltInv(w: World, m: Machine) {
    && (m.handlingHalt <==> m.fetched > 0 && w.program(m.fetched - 1).isHalt)
    && forall i: nat :: i < m.fetched - 1 ==> !w.program(i).isHalt
  }

  predicate ShownInv(m: Machine) {
    var p, s := m.pipe, m.shown;
    && s.ifInstr == p.ifi.instruction && s.idInstr == p.id.instruction && s.exInstr == p.ex.instruction
    && s.memInstr == p.mem.instruction && s.wbInstr == p.wb.instruction
  }

  function Flight(p: Latches): seq<Info> {
    Opt(p.mem) + Opt(p.ex) + Opt(p.id) + Opt(p.ifi)
  }

  predicate ExceptionInFlight(p: Latches) {
    Excepting(p.ifi) || Excepting(p.id) || Excepting(p.ex)
  }

  /** Retired instructions, then those in flight: the executed ones in order, without those
      squashed; only the latest executed can be excepting and not yet squashed. */
  ghost predicate OrderInv(w: World, m: Machine, l: Log) {
    && (ExceptionInFlight(m.pipe) ==> m.fetched > 0 && Excepting(w.program(m.fetched - 1)))
    && l.retired + Flight(m.pipe) ==
         Kept(w.program, m.fetched)
         + (if ExceptionInFlight(m.pipe) then [w.program(m.fetched - 1)] else [])
  }

  /** Each cache was asked once for each instruction that used it, in program order. */
  ghost predicate AccessInv(w: World, m: Machine, l: Log) {
    && m.iAccesses == Pcs(w.program, m.fetched)
    && m.dAccesses == Addresses(l.retired + Opt(m.pipe.mem))
  }

  /** Cycles without a fetch that are still to come for what is in the pipeline. */
  function Pending(m: Machine): nat {
    var p := m.pipe;
    if m.handlingHalt then
      if p.ifi.isHalt then 4 else if p.id.isHalt then 3 else if p.ex.isHalt then 2 else if p.mem.isHalt then 1 else 0
    else if Excepting(p.ifi) then ExtraOf(p.ifi)
    else if p.id.isOverflow then 1
    else 0
  }

  /** Every cycle is accounted for. */
  ghost predicate CountInv(w: World, m: Machine, l: Log) {
    && m.cycleCount == m.fetched + l.bubbles + l.ifStalls + l.idStalls + l.memStalls + l.afterHalt
    && l.bubbles + Pending(m) == Extra(w.program, m.fetched)
    && l.memStalls + RemainingD(m) == CountMisses(w.dHit, m.dAccesses) * w.dLatency
    && l.ifStalls + l.ifHidden + RemainingI(m) == CountMisses(w.iHit, m.iAccesses) * w.iLatency
    && (l.afterHalt > 0 ==> Drained(m))
  }

  /** How many more stalls at ID the instruction there will suffer. */
  function HazardsLeft(p: Latches): nat {
    if LoadBranchEx(p) then 2 else if Hazard(p) then 1 else 0
  }

  ghost predicate PatienceInv(w: World, m: Machine, l: Log) {
    && l.idHere + HazardsLeft(m.pipe) <= Patience(m.pipe.id)
    && l.idStalls <= l.patience + l.idHere
    && l.patience + Patience(m.pipe.id) + Patience(m.pipe.ifi) <= TotalPatience(w.program, m.fetched)
  }

  /** No instruction left ID while the hazard tables said it had to wait. */
  predicate HazardSafe(p: Latches) {
    && !(IsLoad(p.mem) && LoadUseHazard(p.ex, p.mem))
    && !(IsLoad(p.mem) && LoadBranchHazard(p.ex, p.mem))
    && !(IsLoad(p.wb) && LoadBranchHazard(p.ex, p.wb))
    && !(IsBranch(p.ex) && ArithmeticHazard(p.ex, p.mem))
  }

  /** A producer whose dependency with the instruction in ID was not detected yet. */
  function Fresh(p: Latches, x: Info, pairs: set<(nat, nat)>): nat {
    Bit(p.id != NOP && x != NOP && (x.instructionID, p.id.instructionID) !in pairs)
  }

  /** The remembered dependencies are among those detected, which were all counted. */
  ghost predicate Counted(t: Tally, pairs: set<(nat, nat)>) {
    && |t.lut| <= 5 && t.count == |pairs|
    && forall q :: q in t.lut ==> q in pairs
  }

  /** Of the dependencies of consumer c, all are remembered, among the recent ones. */
  ghost predicate Remembers(t: Tally, pairs: set<(nat, nat)>, recent: nat, c: nat) {
    && Counted(t, pairs) && recent <= |t.lut|
    && forall q :: q in pairs && q.1 == c ==> q in t.lut[|t.lut| - recent..]
  }

  /** Recent dependencies, and those that could still be detected, number at most two. */
  ghost predicate Bounded(t: Tally, pairs: set<(nat, nat)>, recent: nat, p: Latches) {
    && Remembers(t, pairs, recent, p.id.instructionID)
    && recent + Fresh(p, p.ex, pairs) + Fresh(p, p.mem, pairs) <= 2
  }

  /** Every consumer detected is older than what is in IF and than anything to be fetched. */
  ghost predicate OldConsumers(m: Machine, pairs: set<(nat, nat)>) {
    forall q :: q in pairs ==> q.1 < m.fetched && (m.pipe.ifi != NOP ==> q.1 < m.fetched - 1)
  }

  /** The five remembered dependencies stand in for all those ever detected. */
  ghost predicate TallyInv(m: Machine, l: Log) {
    && Counted(Tally(m.lut, m.loadStalls), l.pairs)
    && (m.pipe.id != NOP ==> Bounded(Tally(m.lut, m.loadStalls), l.pairs, l.recent, m.pipe))
    && OldConsumers(m, l.pairs)
  }

  ghost predicate Inv(w: World, m: Machine, l: Log) {
    && RecordsInv(w, m) && SignalsInv(w, m) && ExceptionInv(m) && HaltInv(m)
    && OrderInv(w, m, l) && AccessInv(w, m, l) && CountInv(w, m, l) && PatienceInv(w, m, l)
    && HazardSafe(m.pipe) && TallyInv(m, l) && ShownInv(m) && FirstHaltInv(w, m)
  }
}
