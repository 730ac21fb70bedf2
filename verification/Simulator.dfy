/** The cycle simulator object: the emulator, two caches and the pipeline state, updated
    in place by the steps of runCycles. */
module CycleSimulator {
  import opened Bits
  import opened Memory
  import opened Emulation
  import opened EmulatedProgram
  import opened EmulatorTheorems
  import Lru
  import Caching
  import Dependence
  import Accesses = ProgramAccesses
  import Meaning = InstructionMeaning
  import P = Pipeline
  import History = PipelineHistory
  import Invariants = PipelineInvariants
  import Theorems = PipelineTheorems
  import Fun = FunctionalSimulator

  ghost function HitRule(c: Caching.CacheConfig): (seq<Word>, Word) -> bool
    requires Caching.WellFormed(c)
  {
    (h: seq<Word>, a: Word) => Caching.WouldHit(c, h, a)
  }

  /** The cycles an access adds: none on a hit, the latency of the cache on a miss. */
  ghost function MissCost(c: Caching.CacheConfig, h: seq<Word>, a: Word): nat
    requires Caching.WellFormed(c)
  {
    if Caching.WouldHit(c, h, a) then 0 else c.missLatency
  }

  /** Each cache is asked for itself. */
  lemma AsksKeepTheRest(w: P.World, m: P.Machine)
    ensures var n := P.AskInstruction(w, m); n == m.(iDelay := n.iDelay, iAccesses := n.iAccesses)
    ensures var n := P.AskData(w, m); n == m.(dDelay := n.dDelay, dAccesses := n.dAccesses)
  {
    hide P.UsesMemory, P.DataAddress, P.AnyStall;
  }

  /** What the instruction cache is asked when IF holds x: its pc, unless the pipeline stalls. */
  function FetchAsks(f: P.Flags, x: Info): seq<Word> {
    if f.ifStall || f.idStall || f.exStall || f.memStall || f.wbStall || x == NOP then [] else [x.pc]
  }

  /** What the data cache is asked when MEM holds x: the address of a load or store, unless
      MEM stalls. */
  function DataAsks(f: P.Flags, x: Info): seq<Word> {
    if f.memStall || !x.isValid || x == NOP then []
    else if x.opcode in Meaning.LOAD_OPS then [x.loadAddress]
    else if x.opcode in Meaning.STORE_OPS then [x.storeAddress]
    else []
  }

  /** A cache was asked for at most one address, and its delay set to what that costs. */
  ghost predicate Charged(c: Caching.CacheConfig, before: seq<Word>, after: seq<Word>, delay: nat, delay': nat,
                          asked: seq<Word>)
  {
    && Caching.WellFormed(c) && after == before + asked
    && delay' == if asked == [] then delay else MissCost(c, before, asked[0])
  }

  /** The world of a simulation: the program in the memory image, and two LRU caches. */
  ghost function WorldOf(image: MemState, i: Caching.CacheConfig, d: Caching.CacheConfig): P.World
    requires Caching.WellFormed(i) && Caching.WellFormed(d)
  {
    P.World(ProgramOf(image), HitRule(i), HitRule(d), i.missLatency, d.missLatency)
  }

  lemma BootIsZero(mem: MemState)
    ensures Boot(mem).din == 0 && After(Boot(mem), 0) == Boot(mem)
  {
  }

  lemma FirstState(w: P.World)
    ensures History.RunFor(w, 0).m == P.Start()
  {
  }

  /** Setting the clock of the dump, moving, and asking the caches leave the table alone. */
  lemma ClockAndTable(w: P.World, m: P.Machine)
    ensures var c := m.(shown := m.shown.(cycle := m.cycleCount));
      && P.Move(w, c).pipe == P.Move(w, m).pipe
      && P.Move(w, c).lut == m.lut && P.AccessCaches(w, P.Move(w, c)).lut == m.lut
      && P.Move(w, c).cycleCount == m.cycleCount
  {
    hide P.Move, P.AccessCaches;
    var c := m.(shown := m.shown.(cycle := m.cycleCount));
    Invariants.MoveFields(w, m);
    Invariants.AccessFields(w, P.Move(w, c));
  }

  lemma LutIsShort(w: P.World, k: nat)
    requires History.GoodProgram(w.program)
    ensures |History.RunFor(w, k).m.lut| <= 5
  {
    hide History.RunFor;
    Theorems.LoadStallsAreDistinct(w, k);
  }

  class Simulator {
    const emulator: Fun.Emulator
    const iCache: Caching.Cache
    const dCache: Caching.Cache
    var cycleCount: nat
    var loadStalls: nat
    var pipeState: P.PipeState
    var pipeInsInfo: P.Latches
    var iCacheDelay: nat
    var dCacheDelay: nat
    var stalls: P.Flags
    var handlingHalt: bool
    var handlingException: bool
    var squashStage: P.Stage
    var loadStallDepLut: seq<(nat, nat)>
    /** The memory image the simulation started from, and the world it makes. */
    ghost const image: MemState
    ghost const world: P.World

    /** The objects behind the caches and the emulator. */
    ghost function IParts(): set<object> {
      {iCache, iCache.lru, iCache.valid, iCache.tag}
    }

    ghost function DParts(): set<object> {
      {dCache, dCache.lru, dCache.valid, dCache.tag}
    }

    ghost function EParts(): set<object> {
      {emulator, emulator.regs, emulator.memory.memArr}
    }

    ghost function Parts(): set<object> {
      IParts() + DParts() + EParts()
    }

    /** The parts are whole and share nothing. */
    ghost predicate Whole()
      reads Parts()
      ensures Whole() ==> this !in Parts() && EParts() !! IParts() + DParts() && IParts() !! DParts()
    {
      && IParts() !! DParts() && EParts() !! IParts() + DParts() && this !in Parts()
      && emulator.Valid() && iCache.Valid() && dCache.Valid()
      && world == WorldOf(image, iCache.config, dCache.config)
      && emulator.State() == After(Boot(image), emulator.din)
    }

    ghost function View(): P.Machine
      reads this, emulator, iCache, dCache
    {
      P.Machine(emulator.din, pipeInsInfo, pipeState, stalls, iCacheDelay, dCacheDelay, handlingHalt,
                handlingException, squashStage, iCache.history, dCache.history, loadStallDepLut, loadStalls,
                cycleCount)
    }

    /** The state is one the pipeline reaches. */
    ghost predicate Valid()
      reads this, Parts()
    {
      Whole() && View() == History.RunFor(world, cycleCount).m
    }

    /** No cycle so far ended the run. */
    ghost predicate Running()
      reads this
    {
      forall j: nat :: j < cycleCount ==> !P.Halts(world, History.RunFor(world, j).m)
    }

    constructor (iConfig: Caching.CacheConfig, dConfig: Caching.CacheConfig, memory: MemoryStore)
      requires Caching.WellFormed(iConfig) && Caching.WellFormed(dConfig) && memory.Valid()
      ensures Valid() && Running()
      ensures fresh(IParts()) && fresh(DParts()) && fresh(emulator) && fresh(emulator.regs)
      ensures emulator.memory == memory && image == memory.State()
      ensures world == WorldOf(image, iConfig, dConfig) && View() == P.Start()
      ensures iCache.config == iConfig && dCache.config == dConfig
      ensures emulator.PC == 0 && forall i :: 0 <= i < emulator.regs.Length ==> emulator.regs[i] == 0
    {
      hide WorldOf, Boot, Caching.Cache.Valid, Caching.WellFormed, Valid, Running;
      image := memory.State();
      world := WorldOf(memory.State(), iConfig, dConfig);
      emulator := new Fun.Emulator(memory);
      iCache := new Caching.Cache(iConfig);
      dCache := new Caching.Cache(dConfig);
      cycleCount, loadStalls := 0, 0;
      pipeState, pipeInsInfo := P.PipeState(0, 0, 0, 0, 0, 0), P.Latches(NOP, NOP, NOP, NOP, NOP);
      iCacheDelay, dCacheDelay, stalls := 0, 0, P.NO_STALLS;
      handlingHalt, handlingException, squashStage, loadStallDepLut := false, false, P.NONE, [];
      new;
      Assembled();
    }

    /** A new simulator with whole parts that share nothing is in the first state. */
    lemma Assembled()
      requires emulator.Valid() && iCache.Valid() && dCache.Valid()
      requires IParts() !! DParts() && EParts() !! IParts() + DParts() && this !in Parts()
      requires Caching.WellFormed(iCache.config) && Caching.WellFormed(dCache.config)
      requires world == WorldOf(image, iCache.config, dCache.config)
      requires emulator.State() == Boot(image) && View().(fetched := 0) == P.Start()
      ensures Valid() && Running() && View() == P.Start()
    {
      hide WorldOf, Boot, After, Step, Caching.Cache.Valid, Caching.WellFormed, History.RunFor;
      BootIsZero(image);
      FirstState(world);
    }

    lemma WorldIsGood()
      requires Whole()
      ensures History.GoodProgram(world.program) && world.program == ProgramOf(image)
    {
      hide After, Boot, ProgramOf, HitRule, Caching.Cache.Valid, History.GoodProgram;
      EveryImageIsAProgram(image);
    }

    lemma ValidWorld()
      requires Valid()
      ensures world.program == ProgramOf(image)
    {
      hide ProgramOf, History.RunFor, History.GoodProgram;
      WorldIsGood();
    }

    // ----- moving the latches

    method Propagate(info: Info)
      modifies this
      ensures View() == P.Propagate(old(View()), info)
    {
      pipeState := pipeState.(wbInstr := pipeState.memInstr);
      pipeState := pipeState.(memInstr := pipeState.exInstr);
      pipeState := pipeState.(exInstr := pipeState.idInstr);
      pipeState := pipeState.(idInstr := pipeState.ifInstr);
      pipeState := pipeState.(ifInstr := info.instruction);
      pipeInsInfo := pipeInsInfo.(wb := pipeInsInfo.mem);
      pipeInsInfo := pipeInsInfo.(mem := pipeInsInfo.ex);
      pipeInsInfo := pipeInsInfo.(ex := pipeInsInfo.id);
      pipeInsInfo := pipeInsInfo.(id := pipeInsInfo.ifi);
      pipeInsInfo := pipeInsInfo.(ifi := info);
    }

    method Stall(stage: P.Stage)
      requires stage != P.WB
      modifies this
      ensures View() == P.Stall(old(View()), stage)
    {
      match stage {
        case WB =>
        case MEM =>
          pipeState := pipeState.(wbInstr := 0);
          pipeInsInfo := pipeInsInfo.(wb := NOP);
        case EX =>
          pipeState := pipeState.(wbInstr := pipeState.memInstr);
          pipeState := pipeState.(memInstr := 0);
          pipeInsInfo := pipeInsInfo.(wb := pipeInsInfo.mem);
          pipeInsInfo := pipeInsInfo.(mem := NOP);
        case ID =>
          pipeState := pipeState.(wbInstr := pipeState.memInstr);
          pipeState := pipeState.(memInstr := pipeState.exInstr);
          pipeState := pipeState.(exInstr := 0);
          pipeInsInfo := pipeInsInfo.(wb := pipeInsInfo.mem);
          pipeInsInfo := pipeInsInfo.(mem := pipeInsInfo.ex);
          pipeInsInfo := pipeInsInfo.(ex := NOP);
        case IF =>
          pipeState := pipeState.(wbInstr := pipeState.memInstr);
          pipeState := pipeState.(memInstr := pipeState.exInstr);
          pipeState := pipeState.(exInstr := pipeState.idInstr);
          pipeState := pipeState.(idInstr := 0);
          pipeInsInfo := pipeInsInfo.(wb := pipeInsInfo.mem);
          pipeInsInfo := pipeInsInfo.(mem := pipeInsInfo.ex);
          pipeInsInfo := pipeInsInfo.(ex := pipeInsInfo.id);
          pipeInsInfo := pipeInsInfo.(id := NOP);
        case NONE =>
      }
    }

    method Squash(stage: P.Stage)
      modifies this
      ensures View() == P.Squash(old(View()), stage)
    {
      match stage {
        case WB => pipeState, pipeInsInfo := pipeState.(wbInstr := 0), pipeInsInfo.(wb := NOP);
        case MEM => pipeState, pipeInsInfo := pipeState.(memInstr := 0), pipeInsInfo.(mem := NOP);
        case EX => pipeState, pipeInsInfo := pipeState.(exInstr := 0), pipeInsInfo.(ex := NOP);
        case ID => pipeState, pipeInsInfo := pipeState.(idInstr := 0), pipeInsInfo.(id := NOP);
        case IF => pipeState, pipeInsInfo := pipeState.(ifInstr := 0), pipeInsInfo.(ifi := NOP);
        case NONE =>
      }
    }

    /** Stalls or moves the pipeline; the result tells whether a halt reached WB. */
    method MovePipeline() returns (halted: bool)
      requires Whole()
      modifies this, EParts()
      ensures Whole()
      ensures View() == P.Move(world, old(View()))
      ensures halted == (!P.AnyStall(old(stalls)) && pipeInsInfo.wb.isHalt)
    {
      hide Whole, P.Stall, P.Squash, P.Propagate, P.Issue;
      halted := false;
      if stalls.ifStall || stalls.idStall || stalls.memStall || stalls.exStall || stalls.wbStall {
        if stalls.memStall {
          Stall(P.MEM);
        } else if stalls.exStall {
          Stall(P.EX);
        } else if stalls.idStall {
          Stall(P.ID);
        } else if stalls.ifStall {
          Stall(P.IF);
        } else {
          StallNowhere(View());
        }
      } else {
        halted := MoveOn();
      }
    }

    /** Squashes, fetches and moves every latch one stage on. */
    method MoveOn() returns (halted: bool)
      requires Whole() && !P.AnyStall(stalls)
      modifies this, EParts()
      ensures Whole()
      ensures View() == P.Move(world, old(View()))
      ensures halted == pipeInsInfo.wb.isHalt
    {
      hide Whole, P.Stall, P.Squash, P.Propagate;
      ApplySquash();
      var info := NOP;
      if !(handlingHalt || handlingException) {
        info := NextInstruction();
      }
      Propagate(info);
      halted := pipeInsInfo.wb.isHalt;
    }

    lemma StallNowhere(m: P.Machine)
      ensures P.Stall(m, P.NONE) == m
    {
    }

    /** Removes the excepting instruction if the tracker asked for it. */
    method ApplySquash()
      modifies this
      ensures View() == P.Squash(old(View()), old(squashStage)).(squashStage := P.NONE)
    {
      if squashStage != P.NONE {
        Squash(squashStage);
        squashStage := P.NONE;
      }
    }

    /** The emulator delivers the next record of the program. */
    method NextInstruction() returns (info: Info)
      requires Whole()
      modifies EParts()
      ensures Whole()
      ensures info == world.program(old(emulator.din))
      ensures View() == old(View()).(fetched := old(View().fetched) + 1)
    {
      hide Step, Caching.Cache.Valid, HitRule;
      NextPCIsNextPc(emulator.State());
      info := emulator.ExecuteInstruction();
    }

    // ----- caches

    /** A fetched instruction asks the instruction cache for its pc, a load or store that
        entered MEM the data cache for its address; a miss costs the latency of that cache. */
    method UpdateCacheDelays()
      requires Whole()
      modifies this, IParts(), DParts()
      ensures Whole()
      ensures View() == P.AccessCaches(world, old(View()))
      ensures Charged(iCache.config, old(iCache.history), iCache.history, old(iCacheDelay), iCacheDelay,
                      FetchAsks(stalls, pipeInsInfo.ifi))
      ensures Charged(dCache.config, old(dCache.history), dCache.history, old(dCacheDelay), dCacheDelay,
                      DataAsks(stalls, pipeInsInfo.mem))
    {
      hide Whole, Charged, FetchAsks, DataAsks, P.AskInstruction, P.AskData;
      AsksKeepTheRest(world, View());
      AskForInstruction();
      AsksKeepTheRest(world, View());
      AskForData();
    }

    /** The instruction access of a cycle. */
    method AskForInstruction()
      requires Whole()
      modifies this, IParts()
      ensures Whole()
      ensures View() == P.AskInstruction(world, old(View()))
      ensures Charged(iCache.config, old(iCache.history), iCache.history, old(iCacheDelay), iCacheDelay,
                      FetchAsks(stalls, pipeInsInfo.ifi))
    {
      hide Whole, MissCost;
      ConfigsFit();
      if !(stalls.ifStall || stalls.idStall || stalls.memStall || stalls.exStall || stalls.wbStall)
         && pipeInsInfo.ifi != NOP
      {
        AskICache(pipeInsInfo.ifi.pc);
      }
    }

    lemma ConfigsFit()
      requires Whole()
      ensures Caching.WellFormed(iCache.config) && Caching.WellFormed(dCache.config)
    {
    }

    /** The data access of a cycle. */
    method AskForData()
      requires Whole()
      modifies this, DParts()
      ensures Whole()
      ensures View() == P.AskData(world, old(View()))
      ensures Charged(dCache.config, old(dCache.history), dCache.history, old(dCacheDelay), dCacheDelay,
                      DataAsks(stalls, pipeInsInfo.mem))
    {
      hide Whole, MissCost;
      ConfigsFit();
      var x := pipeInsInfo.mem;
      if !stalls.memStall && x.isValid && x != NOP {
        if x.opcode == OP_LBU || x.opcode == OP_LHU || x.opcode == OP_LW {
          AskDCache(x.loadAddress);
        }
        if x.opcode == OP_SB || x.opcode == OP_SH || x.opcode == OP_SW {
          AskDCache(x.storeAddress);
        }
      }
    }

    ghost function DataAsked(m: P.Machine, a: Word): P.Machine {
      m.(dDelay := if world.dHit(m.dAccesses, a) then 0 else world.dLatency, dAccesses := m.dAccesses + [a])
    }

    method AskICache(address: Word)
      requires Whole()
      modifies this, IParts()
      ensures Whole()
      ensures var m := old(View());
        View() == m.(iDelay := if world.iHit(m.iAccesses, address) then 0 else world.iLatency,
                     iAccesses := m.iAccesses + [address])
      ensures iCacheDelay == MissCost(iCache.config, old(iCache.history), address)
    {
      hide After, Boot, Caching.WouldHit, Lru.Misses, Lru.RowAfter;
      var hit := iCache.Access(address);
      iCacheDelay := if hit then 0 else iCache.config.missLatency;
    }

    method AskDCache(address: Word)
      requires Whole()
      modifies this, DParts()
      ensures Whole()
      ensures View() == DataAsked(old(View()), address)
      ensures dCacheDelay == MissCost(dCache.config, old(dCache.history), address)
    {
      hide After, Boot, Caching.WouldHit, Lru.Misses, Lru.RowAfter;
      var hit := dCache.Access(address);
      dCacheDelay := if hit then 0 else dCache.config.missLatency;
    }

    // ----- hazards

    /** Whether a table lists a number. */
    method Listed(table: seq<nat>, x: nat) returns (found: bool)
      ensures found <==> x in table
    {
      found := false;
      for i := 0 to |table|
        invariant x !in table[..i]
      {
        if table[i] == x {
          return true;
        }
      }
    }

    method HasArithmeticHazard() returns (hazard: bool)
      ensures hazard <==> P.ArithmeticHazard(pipeInsInfo.id, pipeInsInfo.ex)
      ensures hazard <==> pipeInsInfo.id.opcode in Dependence.BRANCH_OPS && exists r: RegIndex ::
        r != 0 && Dependence.Needs(pipeInsInfo.id, r) && Dependence.Produces(pipeInsInfo.ex, r)
    {
      hide Dependence.Needs, Dependence.Produces;
      Dependence.HazardsAreDependencies(pipeInsInfo.id, pipeInsInfo.ex);
      var id, ex := pipeInsInfo.id, pipeInsInfo.ex;
      var checkRt := Listed([OP_ADDI, OP_ADDIU, OP_ANDI, OP_LBU, OP_LHU, OP_LUI, OP_LW, OP_ORI, OP_SLTI,
                             OP_SLTIU], ex.opcode);
      var inRdTable := Listed([FUN_ADD, FUN_ADDU, FUN_AND, FUN_NOR, FUN_OR, FUN_SLT, FUN_SLTU, FUN_SLL,
                               FUN_SRL, FUN_SUB, FUN_SUBU], ex.funct);
      var checkRd := ex.opcode == 0 && inRdTable;
      assert checkRt == P.WritesRt(ex) && checkRd == P.WritesRd(ex);
      assert checkRd ==> !checkRt;
      var two := id.opcode == OP_BEQ || id.opcode == OP_BNE;
      var one := id.opcode == OP_BGTZ || id.opcode == OP_BLEZ;
      if (id.rs == ex.rt || id.rt == ex.rt) && two && checkRt && ex.rt != 0 {
        return true;
      } else if (id.rs == ex.rd || id.rt == ex.rd) && two && checkRd && ex.rd != 0 {
        return true;
      } else if id.rs == ex.rt && one && checkRt && ex.rt != 0 {
        return true;
      } else if id.rs == ex.rd && one && checkRd && ex.rd != 0 {
        return true;
      }
      return false;
    }

    method HasLoadBranchHazard(stage: P.Stage) returns (stallNeeded: bool)
      requires stage == P.EX || stage == P.MEM
      ensures stallNeeded <==>
        P.LoadBranchHazard(pipeInsInfo.id, if stage == P.EX then pipeInsInfo.ex else pipeInsInfo.mem)
      ensures var rt := if stage == P.EX then pipeInsInfo.ex.rt else pipeInsInfo.mem.rt;
        stallNeeded <==> rt != 0 && pipeInsInfo.id.opcode in Dependence.BRANCH_OPS
                         && Dependence.Needs(pipeInsInfo.id, rt)
    {
      hide Dependence.Needs, Dependence.Produces;
      var id := pipeInsInfo.id;
      var load := if stage == P.EX then pipeInsInfo.ex else pipeInsInfo.mem;
      Dependence.HazardsAreDependencies(id, load);
      stallNeeded := false;
      if id.opcode == OP_BEQ || id.opcode == OP_BNE {
        if (id.rs == load.rt || id.rt == load.rt) && load.rt != 0 {
          stallNeeded := true;
        }
      } else if id.opcode == OP_BGTZ || id.opcode == OP_BLEZ {
        if id.rs == load.rt && load.rt != 0 {
          stallNeeded := true;
        }
      }
    }

    method HasLoadUseHazard() returns (hazard: bool)
      ensures hazard <==> P.LoadUseHazard(pipeInsInfo.id, pipeInsInfo.ex)
      ensures hazard <==> pipeInsInfo.ex.rt != 0 && pipeInsInfo.id.opcode !in Dependence.BRANCH_OPS
                          && Dependence.Needs(pipeInsInfo.id, pipeInsInfo.ex.rt)
    {
      hide Dependence.Needs, Dependence.Produces;
      var id, ex := pipeInsInfo.id, pipeInsInfo.ex;
      Dependence.HazardsAreDependencies(id, ex);
      var rtOp := Listed([OP_SB, OP_SH, OP_SW], id.opcode);
      var rtFunct := Listed([FUN_ADD, FUN_ADDU, FUN_AND, FUN_NOR, FUN_OR, FUN_SLT, FUN_SLTU, FUN_SLL, FUN_SRL,
                             FUN_SUB, FUN_SUBU], id.funct);
      var rsOp := Listed([OP_ADDI, OP_ADDIU, OP_ANDI, OP_ORI, OP_SLTI, OP_SLTIU, OP_LW, OP_SH, OP_SW, OP_LBU,
                          OP_LHU, OP_SB], id.opcode);
      var rsFunct := Listed([FUN_ADD, FUN_ADDU, FUN_AND, FUN_JR, FUN_NOR, FUN_OR, FUN_SLT, FUN_SLTU, FUN_SUB,
                             FUN_SUBU], id.funct);
      var checkRtUse := rtOp || (rtFunct && id.opcode == 0);
      var checkRsUse := rsOp || (rsFunct && id.opcode == 0);
      assert checkRtUse == P.UsesRt(id) && checkRsUse == P.UsesRs(id);
      hazard := (id.rs == ex.rt && checkRsUse && ex.rt != 0) || (id.rt == ex.rt && checkRtUse && ex.rt != 0);
    }

    method SeenLoadStall(q: (nat, nat)) returns (seen: bool)
      ensures seen <==> q in loadStallDepLut
    {
      seen := false;
      for i := 0 to |loadStallDepLut|
        invariant q !in loadStallDepLut[..i]
      {
        if loadStallDepLut[i] == q {
          return true;
        }
      }
    }

    method AppendLoadStall(q: (nat, nat))
      requires q !in loadStallDepLut && |loadStallDepLut| <= 5
      modifies this`loadStallDepLut
      ensures loadStallDepLut == P.Append(old(loadStallDepLut), q) && |loadStallDepLut| <= 5
    {
      if |loadStallDepLut| == 5 {
        loadStallDepLut := loadStallDepLut[1..];
      }
      loadStallDepLut := loadStallDepLut + [q];
    }

    /** Counts a load stall unless its dependency was counted before. */
    method CountLoadStall(q: (nat, nat))
      requires |loadStallDepLut| <= 5
      modifies this`loadStallDepLut, this`loadStalls
      ensures |loadStallDepLut| <= 5
      ensures P.Tally(loadStallDepLut, loadStalls) == P.Note(old(P.Tally(loadStallDepLut, loadStalls)), true, q)
    {
      var seen := SeenLoadStall(q);
      if !seen {
        AppendLoadStall(q);
        loadStalls := loadStalls + 1;
      }
    }

    method DetectHazards()
      requires |loadStallDepLut| <= 5
      modifies this
      ensures View() == P.DetectHazards(old(View()))
      ensures stalls.idStall <==> old(stalls.idStall) || Dependence.MustWait(pipeInsInfo)
    {
      hide Dependence.MustWait, P.Note, P.LoadUseNow, P.LoadBranchEx, P.LoadBranchMem, P.ArithmeticHazard;
      Dependence.HazardIsDependency(pipeInsInfo);
      var p := pipeInsInfo;
      ghost var t := P.Tally(loadStallDepLut, loadStalls);
      var exPair, memPair := (p.ex.instructionID, p.id.instructionID), (p.mem.instructionID, p.id.instructionID);
      var loadUse := DetectLoadUse();
      var branchEx := DetectLoadBranch(P.EX);
      var branchMem := DetectLoadBranch(P.MEM);
      assert P.Tally(loadStallDepLut, loadStalls) == P.NoteAll(t, p);
      var arithmetic := false;
      if p.id.opcode == OP_BEQ || p.id.opcode == OP_BGTZ || p.id.opcode == OP_BLEZ || p.id.opcode == OP_BNE {
        arithmetic := HasArithmeticHazard();
      }
      stalls := stalls.(idStall := stalls.idStall || arithmetic || loadUse || branchEx || branchMem);
    }

    /** The load-use part of detectHazards. */
    method DetectLoadUse() returns (found: bool)
      requires |loadStallDepLut| <= 5
      modifies this`loadStallDepLut, this`loadStalls
      ensures |loadStallDepLut| <= 5
      ensures found == P.LoadUseNow(pipeInsInfo)
      ensures P.Tally(loadStallDepLut, loadStalls) == P.Note(old(P.Tally(loadStallDepLut, loadStalls)), found,
                (pipeInsInfo.ex.instructionID, pipeInsInfo.id.instructionID))
    {
      var p := pipeInsInfo;
      found := false;
      if p.ex.opcode == OP_LBU || p.ex.opcode == OP_LHU || p.ex.opcode == OP_LW {
        found := HasLoadUseHazard();
        if found {
          CountLoadStall((p.ex.instructionID, p.id.instructionID));
        }
      }
    }

    /** The load-branch parts of detectHazards, with the load in EX or in MEM. */
    method DetectLoadBranch(stage: P.Stage) returns (found: bool)
      requires stage == P.EX || stage == P.MEM
      requires |loadStallDepLut| <= 5
      modifies this`loadStallDepLut, this`loadStalls
      ensures |loadStallDepLut| <= 5
      ensures found == if stage == P.EX then P.LoadBranchEx(pipeInsInfo) else P.LoadBranchMem(pipeInsInfo)
      ensures P.Tally(loadStallDepLut, loadStalls) == P.Note(old(P.Tally(loadStallDepLut, loadStalls)), found,
                (if stage == P.EX then pipeInsInfo.ex.instructionID else pipeInsInfo.mem.instructionID,
                 pipeInsInfo.id.instructionID))
    {
      var load := if stage == P.EX then pipeInsInfo.ex else pipeInsInfo.mem;
      found := false;
      if load.opcode == OP_LBU || load.opcode == OP_LHU || load.opcode == OP_LW {
        found := HasLoadBranchHazard(stage);
        if found {
          CountLoadStall((load.instructionID, pipeInsInfo.id.instructionID));
        }
      }
    }

    // ----- trackers and the cycle

    method HandleHalt()
      modifies this
      ensures View() == P.HandleHalt(old(View()))
    {
      if !handlingHalt {
        handlingHalt := pipeInsInfo.ifi.isHalt;
      }
    }

    method HandleException()
      modifies this
      ensures View() == P.HandleException(old(View()))
    {
      if !handlingException {
        handlingException := pipeInsInfo.ifi.isOverflow || !pipeInsInfo.ifi.isValid;
      }
      if handlingException {
        if !pipeInsInfo.id.isValid {
          handlingException := false;
          squashStage := P.ID;
        } else if pipeInsInfo.ex.isOverflow {
          handlingException := false;
          squashStage := P.EX;
        }
      }
    }

    method ResetStalls()
      modifies this
      ensures View() == old(View()).(flags := P.NO_STALLS)
    {
      stalls := P.NO_STALLS;
    }

    /** One iteration of the loop of runCycles. */
    method RunCycle() returns (halted: bool)
      requires Valid()
      modifies this, Parts()
      ensures Valid() && cycleCount == old(cycleCount) + 1
      ensures halted == P.Halts(world, old(View()))
    {
      hide Whole, History.RunFor, P.Move, P.AccessCaches, P.Settle, History.GoodProgram, ProgramOf, History.Observe;
      ghost var before := View();
      WorldIsGood();
      LutIsShort(world, cycleCount);
      Theorems.StepOf(world, cycleCount);
      ClockAndTable(world, before);
      pipeState := pipeState.(cycle := cycleCount);
      halted := MovePipeline();
      if halted {
        cycleCount := cycleCount + 1;
      } else {
        SettleCounts(world, View());
        SettleCycle();
      }
    }

    lemma SettleCounts(w: P.World, m: P.Machine)
      ensures P.Settle(w, m).cycleCount == m.cycleCount + 1
    {
      hide P.Settle;
      Invariants.SettleFields(w, m);
    }

    /** The steps of a cycle after the latches moved. */
    method SettleCycle()
      requires Whole() && |P.AccessCaches(world, View()).lut| <= 5
      modifies this, IParts(), DParts()
      ensures Whole()
      ensures View() == P.Settle(world, old(View()))
    {
      hide Whole, P.AccessCaches, P.SignalMisses, P.DetectHazards, P.CountDown, P.HandleHalt, P.HandleException,
        Charged, FetchAsks, DataAsks, Dependence.MustWait;
      UpdateCacheDelays();
      SignalKeepsTable(View());
      SignalMisses();
      DetectHazards();
      CountDownDelays();
      HandleHalt();
      HandleException();
      cycleCount := cycleCount + 1;
    }

    lemma SignalKeepsTable(m: P.Machine)
      ensures P.SignalMisses(m).lut == m.lut
    {
    }

    /** Sets the stall signals from the delays alone. */
    method SignalMisses()
      modifies this
      ensures View() == P.SignalMisses(old(View()))
    {
      ResetStalls();
      stalls := stalls.(ifStall := iCacheDelay > 0);
      stalls := stalls.(memStall := dCacheDelay > 0);
    }

    method CountDownDelays()
      modifies this
      ensures View() == P.CountDown(old(View()))
    {
      if iCacheDelay > 0 {
        iCacheDelay := iCacheDelay - 1;
      }
      if dCacheDelay > 0 {
        dCacheDelay := dCacheDelay - 1;
      }
    }

    // ----- runs

    /** What a run reports when it ended: the emulator, what the caches were asked, their
        counters, and the cycles they cost. */
    ghost predicate Reports(n: nat)
      requires Whole()
      reads this, Parts()
    {
      var p, log := world.program, History.RunFor(world, cycleCount).log;
      && emulator.State() == After(Boot(image), n + 1)
      && Theorems.Finished(world, n, View(), log)
      && cycleCount <= Theorems.CycleBound(world, n) + 1
      && iCache.history == Accesses.FetchAddresses(Boot(image), n + 1)
      && dCache.history == Accesses.EffectiveAddresses(Boot(image), n + 1)
      && iCache.hits + iCache.misses == n + 1
      && dCache.hits + dCache.misses == |Accesses.EffectiveAddresses(Boot(image), n + 1)|
      && log.ifStalls + log.ifHidden == iCache.misses * iCache.config.missLatency
      && log.memStalls == dCache.misses * dCache.config.missLatency
      && cycleCount == n + 5 + Theorems.Invalids(p, n + 1) + 2 * Theorems.Overflows(p, n + 1)
                       + log.ifStalls + log.idStalls + dCache.misses * dCache.config.missLatency
    }

    /** Runs the given number of cycles, or with 0 as many as it takes to halt; in that
        case `n` is the index at which the program halts. */
    method RunCycles(cycles: nat, ghost n: nat) returns (status: Fun.Status)
      requires Valid()
      requires cycles == 0 ==> Running() && Theorems.HaltsFirst(world.program, n)
      modifies this, Parts()
      ensures Valid()
      ensures status == Fun.HALT || status == Fun.SUCCESS
      ensures status == Fun.SUCCESS ==>
        cycles > 0 && cycleCount == old(cycleCount) + cycles && (old(Running()) ==> Running())
      ensures status == Fun.HALT ==>
        && cycleCount > old(cycleCount) && (cycles > 0 ==> cycleCount <= old(cycleCount) + cycles)
        && P.Halts(world, History.RunFor(world, cycleCount - 1).m)
        && (old(Running()) ==> Theorems.EndsAt(world, cycleCount - 1))
    {
      hide P.Halts, History.RunFor, Whole, Theorems.HaltsFirst, Theorems.CycleBound;
      var count := 0;
      ghost var running := Running();
      WorldIsGood();
      status := Fun.SUCCESS;
      while cycles == 0 || count < cycles
        invariant Valid() && cycleCount == old(cycleCount) + count
        invariant cycles == 0 || count <= cycles
        invariant running ==> Running()
        decreases if cycles == 0 then Theorems.CycleBound(world, n) + 1 - cycleCount else cycles - count
      {
        if running && cycles == 0 {
          Theorems.NotEndedBound(world, cycleCount, n);
        }
        var halted := RunCycle();
        count := count + 1;
        if halted {
          return Fun.HALT;
        }
      }
    }

    /** Runs one cycle at a time until the halt; `n` is the index at which the program halts. */
    method RunTillHalt(ghost n: nat) returns (status: Fun.Status)
      requires Valid() && Running() && Theorems.HaltsFirst(world.program, n)
      modifies this, Parts()
      ensures Valid() && status == Fun.HALT
      ensures cycleCount > 0 && Theorems.EndsAt(world, cycleCount - 1) && Reports(n)
      ensures emulator.State() == After(Boot(image), n + 1)
    {
      hide P.Halts, History.RunFor, Whole, Theorems.HaltsFirst, Theorems.CycleBound, Reports, Theorems.EndsAt;
      WorldIsGood();
      status := Fun.SUCCESS;
      while true
        invariant Valid() && Running()
        decreases Theorems.CycleBound(world, n) + 1 - cycleCount
      {
        Theorems.NotEndedBound(world, cycleCount, n);
        status := RunCycles(1, n);
        if status == Fun.HALT {
          break;
        }
      }
      EndReports(n);
    }

    lemma EndReports(n: nat)
      requires Valid() && Theorems.HaltsFirst(world.program, n)
      requires cycleCount > 0 && Theorems.EndsAt(world, cycleCount - 1)
      ensures Reports(n) && emulator.State() == After(Boot(image), n + 1)
    {
      hide P.Halts, History.RunFor, Theorems.HaltsFirst, Theorems.CycleBound, After, Boot,
        Caching.WellFormed, HitRule, Lru.Misses, Lru.RowAfter, History.CountMisses, History.Addresses, History.Pcs,
        History.Kept, History.Trace, History.Extra, History.TotalPatience, ProgramOf, Accesses.FetchAddresses,
        Accesses.EffectiveAddresses, Theorems.Invalids, Theorems.Overflows;
      WorldIsGood();
      var k := cycleCount - 1;
      Theorems.HaltIsSound(world, k);
      Theorems.NotEndedBound(world, k, n);
      Theorems.OneFirstHalt(world.program, n, emulator.din - 1);
      Theorems.KeptLength(world.program, n + 1);
      MissesAgree(iCache.config, iCache.history);
      MissesAgree(dCache.config, dCache.history);
      Accesses.AccessesAtTheEnd(image, n);
    }
  }

  /** The counters of a cache object count the misses the rule predicts. */
  lemma {:induction false} MissesAgree(c: Caching.CacheConfig, h: seq<Word>)
    requires Caching.WellFormed(c)
    ensures Lru.Misses(Caching.GeometryOf(c), c.ways, h) == History.CountMisses(HitRule(c), h)
  {
    hide Lru.HitsIn, Lru.NearEnough, Caching.IsPow2, Caching.NumSets;
    if |h| > 0 {
      MissesAgree(c, h[..|h| - 1]);
      Lru.HitIffNearEnough(Caching.GeometryOf(c), c.ways, h[..|h| - 1], h[|h| - 1]);
    }
  }

  /** Two configurations that differ only in their ways, and so in their size. */
  predicate MoreWays(c: Caching.CacheConfig, d: Caching.CacheConfig) {
    && Caching.WellFormed(c) && Caching.WellFormed(d)
    && Caching.GeometryOf(c) == Caching.GeometryOf(d)
    && c.missLatency == d.missLatency && c.ways <= d.ways
  }

  lemma MoreWaysFewerCounted(c: Caching.CacheConfig, d: Caching.CacheConfig, h: seq<Word>)
    requires MoreWays(c, d)
    ensures History.CountMisses(HitRule(d), h) <= History.CountMisses(HitRule(c), h)
  {
    hide Lru.Misses, History.CountMisses, HitRule, Caching.NumSets, Caching.IsPow2;
    MissesAgree(c, h);
    MissesAgree(d, h);
    Lru.MoreWaysFewerMisses(Caching.GeometryOf(c), c.ways, d.ways, h);
  }

  /** Two simulations of one memory image, the second with more ways: at HALT the second has
      no more instruction misses, no more data misses, no more stalls at MEM, and no more
      cycles with an instruction miss pending. */
  lemma MoreWaysCostNothing(image: MemState, i: Caching.CacheConfig, i': Caching.CacheConfig,
                            d: Caching.CacheConfig, d': Caching.CacheConfig, j: nat, k: nat)
    requires MoreWays(i, i') && MoreWays(d, d')
    requires Theorems.EndsAt(WorldOf(image, i, d), j) && Theorems.EndsAt(WorldOf(image, i', d'), k)
    ensures var u, v := WorldOf(image, i, d), WorldOf(image, i', d');
      var r, s := History.RunFor(u, j + 1), History.RunFor(v, k + 1);
      && History.CountMisses(v.iHit, s.m.iAccesses) <= History.CountMisses(u.iHit, r.m.iAccesses)
      && History.CountMisses(v.dHit, s.m.dAccesses) <= History.CountMisses(u.dHit, r.m.dAccesses)
      && s.log.memStalls <= r.log.memStalls
      && s.log.ifStalls + s.log.ifHidden <= r.log.ifStalls + r.log.ifHidden
  {
    hide History.RunFor, Theorems.EndsAt, Theorems.HaltsFirst, HitRule, History.CountMisses, History.GoodProgram,
      ProgramOf, History.Kept, History.Pcs, History.Addresses, History.Trace, History.TotalPatience,
      Theorems.Invalids, Theorems.Overflows, Caching.WellFormed, Caching.NumSets;
    var u, v := WorldOf(image, i, d), WorldOf(image, i', d');
    var r, s := History.RunFor(u, j + 1), History.RunFor(v, k + 1);
    EveryImageIsAProgram(image);
    Theorems.HaltIsSound(u, j);
    Theorems.HaltIsSound(v, k);
    Theorems.TimingChangesNothing(u, v, j, k);
    MoreWaysFewerCounted(i, i', r.m.iAccesses);
    MoreWaysFewerCounted(d, d', r.m.dAccesses);
    MulMonotone(History.CountMisses(v.iHit, s.m.iAccesses), History.CountMisses(u.iHit, r.m.iAccesses), u.iLatency);
    MulMonotone(History.CountMisses(v.dHit, s.m.dAccesses), History.CountMisses(u.dHit, r.m.dAccesses), u.dLatency);
  }
}
