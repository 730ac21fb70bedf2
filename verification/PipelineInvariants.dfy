/** One cycle keeps every invariant of the pipeline. */
module PipelineInvariants {
  import opened Bits
  import opened Emulation
  import opened Pipeline
  import opened PipelineHistory

  // ----- one cycle, field by field

  predicate Fetches(m: Machine) {
    !AnyStall(m.flags) && !m.handlingHalt && !m.handlingException
  }

  function AfterSquash(m: Machine): Latches {
    Squash(m, m.squashStage).pipe
  }

  function NextPipe(w: World, m: Machine): Latches {
    var p, q := m.pipe, AfterSquash(m);
    if !AnyStall(m.flags) then
      Latches(if Fetches(m) then w.program(m.fetched) else NOP, q.ifi, q.id, q.ex, q.mem)
    else
      match StallStage(m.flags)
      case MEM => p.(wb := NOP)
      case EX => p.(wb := p.mem, mem := NOP)
      case ID => p.(wb := p.mem, mem := p.ex, ex := NOP)
      case IF => p.(wb := p.mem, mem := p.ex, ex := p.id, id := NOP)
      case _ => p
  }

  /** A new instruction access, and a new data access, in the cycle. */
  predicate AsksI(w: World, m: Machine) {
    !AnyStall(m.flags) && NextPipe(w, m).ifi != NOP
  }

  predicate AsksD(w: World, m: Machine) {
    var x := NextPipe(w, m).mem;
    !m.flags.memStall && x.isValid && x != NOP && UsesMemory(x)
  }

  function NextIDelay(w: World, m: Machine): nat {
    if !AsksI(w, m) then m.iDelay
    else if w.iHit(m.iAccesses, NextPipe(w, m).ifi.pc) then 0 else w.iLatency
  }

  function NextDDelay(w: World, m: Machine): nat {
    if !AsksD(w, m) then m.dDelay
    else if w.dHit(m.dAccesses, DataAddress(NextPipe(w, m).mem)) then 0 else w.dLatency
  }

  /** A cycle that runs to the end of the loop body. */
  function FullCycle(w: World, m: Machine): Machine {
    Settle(w, Move(w, m.(shown := m.shown.(cycle := m.cycleCount))))
  }

  lemma MoveFields(w: World, m: Machine)
    ensures var a := Move(w, m.(shown := m.shown.(cycle := m.cycleCount)));
      && a.pipe == NextPipe(w, m) && Move(w, m).pipe == a.pipe
      && a.fetched == m.fetched + Bit(Fetches(m))
      && a.squashStage == (if AnyStall(m.flags) then m.squashStage else NONE)
      && a == m.(shown := a.shown, pipe := a.pipe, fetched := a.fetched, squashStage := a.squashStage)
  {
    hide AnyStall;
    var c := m.(shown := m.shown.(cycle := m.cycleCount));
    if AnyStall(m.flags) {
      StallFields(c, StallStage(m.flags));
      StallFields(m, StallStage(m.flags));
    } else {
      SquashFields(c, m.squashStage);
      SquashFields(m, m.squashStage);
    }
  }

  lemma StallFields(m: Machine, stage: Stage)
    ensures var a, p := Stall(m, stage), m.pipe;
      && a == m.(shown := a.shown, pipe := a.pipe)
      && a.pipe == (match stage
         case MEM => p.(wb := NOP)
         case EX => p.(wb := p.mem, mem := NOP)
         case ID => p.(wb := p.mem, mem := p.ex, ex := NOP)
         case IF => p.(wb := p.mem, mem := p.ex, ex := p.id, id := NOP)
         case _ => p)
  {
  }

  lemma SquashFields(m: Machine, stage: Stage)
    ensures var a := Squash(m, stage); a == m.(shown := a.shown, pipe := a.pipe)
  {
  }

  lemma AccessFields(w: World, m: Machine)
    ensures var c := AccessCaches(w, m);
      c == m.(iDelay := c.iDelay, dDelay := c.dDelay, iAccesses := c.iAccesses, dAccesses := c.dAccesses)
  {
    hide UsesMemory, DataAddress, AnyStall;
  }

  lemma TrackFields(m: Machine)
    ensures var n := HandleException(HandleHalt(m));
      && n == m.(handlingHalt := n.handlingHalt, handlingException := n.handlingException,
                 squashStage := n.squashStage)
      && n.handlingHalt == (m.handlingHalt || m.pipe.ifi.isHalt)
  {
  }

  lemma SettleFields(w: World, a: Machine)
    ensures var c, n := AccessCaches(w, a), Settle(w, a);
      && n.pipe == a.pipe && n.shown == a.shown && n.fetched == a.fetched
      && n.cycleCount == a.cycleCount + 1
      && n.flags == Flags(c.iDelay > 0, Hazard(a.pipe), false, c.dDelay > 0, false)
      && n.iDelay == Less1(c.iDelay) && n.dDelay == Less1(c.dDelay)
      && n.iAccesses == c.iAccesses && n.dAccesses == c.dAccesses
      && Tally(n.lut, n.loadStalls) == NoteAll(Tally(a.lut, a.loadStalls), a.pipe)
      && n.handlingHalt == (a.handlingHalt || a.pipe.ifi.isHalt)
  {
    hide Hazard, NoteAll, AccessCaches, HandleException, HandleHalt;
    AccessFields(w, a);
    TrackFields(CountDown(DetectHazards(SignalMisses(AccessCaches(w, a)))));
  }

  lemma CycleFields(w: World, m: Machine)
    ensures var n := FullCycle(w, m);
      && n.pipe == NextPipe(w, m)
      && n.fetched == m.fetched + Bit(Fetches(m))
      && n.cycleCount == m.cycleCount + 1
      && n.flags == Flags(NextIDelay(w, m) > 0, Hazard(n.pipe), false, NextDDelay(w, m) > 0, false)
      && n.iDelay == Less1(NextIDelay(w, m)) && n.dDelay == Less1(NextDDelay(w, m))
      && n.iAccesses == m.iAccesses + (if AsksI(w, m) then [n.pipe.ifi.pc] else [])
      && n.dAccesses == m.dAccesses + (if AsksD(w, m) then [DataAddress(n.pipe.mem)] else [])
      && Tally(n.lut, n.loadStalls) == NoteAll(Tally(m.lut, m.loadStalls), n.pipe)
      && n.handlingHalt == (m.handlingHalt || n.pipe.ifi.isHalt)
  {
    hide Hazard, NoteAll, UsesMemory, DataAddress, NextPipe, Move, Settle;
    var a := Move(w, m.(shown := m.shown.(cycle := m.cycleCount)));
    MoveFields(w, m);
    SettleFields(w, a);
  }

  /** The exception tracker after a cycle. */
  lemma TrackerFields(w: World, m: Machine)
    ensures var n := FullCycle(w, m);
      var squash := if AnyStall(m.flags) then m.squashStage else NONE;
      var handling := m.handlingException || Excepting(n.pipe.ifi);
      && n.handlingException == (handling && n.pipe.id.isValid && !n.pipe.ex.isOverflow)
      && n.squashStage == (if !handling then squash else if !n.pipe.id.isValid then ID
                           else if n.pipe.ex.isOverflow then EX else squash)
  {
    hide Hazard, NoteAll, UsesMemory, DataAddress, NextPipe, Move, AccessCaches, HandleException, HandleHalt;
    MoveFields(w, m);
    var a := Move(w, m.(shown := m.shown.(cycle := m.cycleCount)));
    AccessFields(w, a);
    TrackedException(CountDown(DetectHazards(SignalMisses(AccessCaches(w, a)))));
  }

  lemma TrackedException(m: Machine)
    ensures var n := HandleException(HandleHalt(m));
      var handling := m.handlingException || Excepting(m.pipe.ifi);
      && n.pipe == m.pipe
      && n.handlingException == (handling && m.pipe.id.isValid && !m.pipe.ex.isOverflow)
      && n.squashStage == (if !handling then m.squashStage else if !m.pipe.id.isValid then ID
                           else if m.pipe.ex.isOverflow then EX else m.squashStage)
  {
  }

  // ----- the halting cycle is a full cycle

  lemma BubbleIsHarmless(p: Latches)
    requires p.id == NOP
    ensures !Hazard(p)
  {
  }

  lemma NoHazardNoNote(t: Tally, p: Latches)
    requires !Hazard(p)
    ensures NoteAll(t, p) == t
  {
    hide LoadUseNow, LoadBranchEx, LoadBranchMem;
  }

  /** Leaving the loop early on HALT skips nothing that would have changed the state. */
  lemma EarlyExitSkipsNothing(w: World, m: Machine)
    requires SignalsInv(w, m) && ExceptionInv(m) && HaltInv(m)
    ensures Cycle(w, m) == FullCycle(w, m)
  {
    hide Hazard, NoteAll, LoadUseNow, LoadBranchEx, LoadBranchMem, UsesMemory, DataAddress;
    if Halts(w, m) {
      BubbleIsHarmless(NextPipe(w, m));
      NoHazardNoNote(Tally(m.lut, m.loadStalls), NextPipe(w, m));
    }
  }

  // ----- the invariants, one at a time

  lemma NopIsGood()
    ensures GoodRecord(NOP) && !Excepting(NOP) && !NOP.isHalt && !UsesMemory(NOP)
  {
  }

  lemma ExecutedIsGood(w: World, m: Machine, x: Info)
    requires GoodProgram(w.program) && Executed(w, m, x)
    ensures GoodRecord(x)
  {
    NopIsGood();
  }

  /** An invalid instruction, a halt and a bubble cause no hazard in ID. */
  lemma NoHazardFor(w: World, m: Machine, p: Latches)
    requires GoodProgram(w.program) && Executed(w, m, p.id)
    requires p.id == NOP || p.id.isHalt || !p.id.isValid
    ensures !Hazard(p)
  {
    ExecutedIsGood(w, m, p.id);
  }

  lemma StallShown(m: Machine, stage: Stage)
    requires ShownInv(m)
    ensures ShownInv(Stall(m, stage))
  {
  }

  lemma SquashShown(m: Machine, stage: Stage)
    requires ShownInv(m)
    ensures ShownInv(Squash(m, stage))
  {
  }

  lemma MoveShown(w: World, m: Machine)
    requires ShownInv(m)
    ensures ShownInv(Move(w, m))
  {
    hide AnyStall, Stall, Squash;
    if AnyStall(m.flags) {
      StallShown(m, StallStage(m.flags));
    } else {
      SquashShown(m, m.squashStage);
    }
  }

  lemma KeepsShown(w: World, m: Machine)
    requires ShownInv(m)
    ensures ShownInv(FullCycle(w, m))
  {
    hide Settle, Move;
    var c := m.(shown := m.shown.(cycle := m.cycleCount));
    MoveShown(w, c);
    SettleFields(w, Move(w, c));
  }

  lemma StillExecuted(w: World, m: Machine, n: Machine, x: Info)
    requires Executed(w, m, x) && m.fetched <= n.fetched
    ensures Executed(w, n, x)
  {
  }

  /** Squashing replaces latches by bubbles; IF is never squashed while the tracker is right. */
  lemma SquashedLatches(m: Machine)
    ensures var p, q := m.pipe, AfterSquash(m);
      && (q.ifi == p.ifi || q.ifi == NOP) && (q.id == p.id || q.id == NOP)
      && (q.ex == p.ex || q.ex == NOP) && (q.mem == p.mem || q.mem == NOP)
  {
  }

  lemma LatchesExecuted(w: World, m: Machine)
    requires GoodProgram(w.program) && RecordsInv(w, m)
    ensures var p, n := NextPipe(w, m), m.(fetched := m.fetched + Bit(Fetches(m)));
      Executed(w, n, p.ifi) && Executed(w, n, p.id) && Executed(w, n, p.ex)
      && Executed(w, n, p.mem) && Executed(w, n, p.wb)
  {
    hide Executed, GoodRecord, AfterSquash;
    var n := m.(fetched := m.fetched + Bit(Fetches(m)));
    StillExecuted(w, m, n, m.pipe.ifi);
    StillExecuted(w, m, n, m.pipe.id);
    StillExecuted(w, m, n, m.pipe.ex);
    StillExecuted(w, m, n, m.pipe.mem);
    StillExecuted(w, m, n, m.pipe.wb);
    BubbleExecuted(w, n);
    SquashedLatches(m);
    if Fetches(m) {
      NewestExecuted(w, n);
    }
  }

  lemma IdsAscend(w: World, m: Machine)
    requires GoodProgram(w.program) && RecordsInv(w, m)
    ensures var p, f := NextPipe(w, m), m.fetched + Bit(Fetches(m));
      && (p.ifi != NOP ==> p.ifi.instructionID == f - 1)
      && (p.id != NOP && p.ifi != NOP ==> p.id.instructionID < f - 1)
  {
    hide GoodRecord, AfterSquash;
    SquashedLatches(m);
    if Fetches(m) {
      NewestExecuted(w, m.(fetched := m.fetched + 1));
    }
  }

  lemma KeepsRecords(w: World, m: Machine)
    requires GoodProgram(w.program) && RecordsInv(w, m)
    ensures RecordsInv(w, FullCycle(w, m))
  {
    hide FullCycle, NextPipe, Fetches, AsksI, AsksD, NextIDelay, NextDDelay, Hazard, NoteAll, GoodProgram;
    CycleFields(w, m);
    LatchesExecuted(w, m);
    IdsAscend(w, m);
  }

  lemma BubbleExecuted(w: World, m: Machine)
    ensures Executed(w, m, NOP)
  {
  }

  lemma NewestExecuted(w: World, m: Machine)
    requires GoodProgram(w.program) && m.fetched > 0
    ensures Executed(w, m, w.program(m.fetched - 1))
    ensures w.program(m.fetched - 1).instructionID == m.fetched - 1
  {
    assert GoodRecord(w.program(m.fetched - 1));
  }

  /** While a stall holds it, or while the fetch waits, an excepting instruction stays
      where the tracker believes it is. */
  lemma KeepsExceptions(w: World, m: Machine)
    requires GoodProgram(w.program) && RecordsInv(w, m) && SignalsInv(w, m) && ExceptionInv(m)
    ensures ExceptionInv(FullCycle(w, m))
  {
    hide FullCycle, Hazard, NoteAll, UsesMemory, UsesRs, UsesRt, IsBranch, DataAddress;
    CycleFields(w, m);
    TrackerFields(w, m);
    ExecutedIsGood(w, m, m.pipe.ifi);
    ExecutedIsGood(w, m, m.pipe.id);
    ExecutedIsGood(w, m, m.pipe.ex);
    if m.pipe.id == NOP || !m.pipe.id.isValid {
      NoHazardFor(w, m, m.pipe);
    }
  }

  lemma KeepsHalt(w: World, m: Machine)
    requires GoodProgram(w.program) && RecordsInv(w, m) && SignalsInv(w, m) && ExceptionInv(m) && HaltInv(m)
    ensures HaltInv(FullCycle(w, m))
  {
    hide FullCycle, Hazard, NoteAll, UsesMemory, UsesRs, UsesRt, IsBranch, DataAddress;
    CycleFields(w, m);
    ExecutedIsGood(w, m, m.pipe.ifi);
    ExecutedIsGood(w, m, m.pipe.id);
    ExecutedIsGood(w, m, m.pipe.ex);
    ExecutedIsGood(w, m, m.pipe.mem);
    if m.pipe.id == NOP || m.pipe.id.isHalt {
      NoHazardFor(w, m, m.pipe);
    }
  }

  lemma KeepsFirstHalt(w: World, m: Machine)
    requires GoodProgram(w.program) && RecordsInv(w, m) && HaltInv(m) && FirstHaltInv(w, m)
    requires ExceptionInv(m)
    ensures FirstHaltInv(w, FullCycle(w, m))
  {
    hide FullCycle, Hazard, NoteAll, UsesMemory, NextIDelay, NextDDelay, AsksI, AsksD, GoodProgram, Executed;
    CycleFields(w, m);
    NopIsGood();
  }

  // ----- signals and hazards

  lemma KeepsSignals(w: World, m: Machine)
    requires SignalsInv(w, m)
    ensures SignalsInv(w, FullCycle(w, m))
  {
    hide FullCycle, Hazard, NoteAll, UsesMemory, DataAddress, AfterSquash;
    CycleFields(w, m);
    SquashedLatches(m);
  }

  /** The stall signal for ID, computed from the latches of the state, is what keeps a
      consumer behind its producer. */
  lemma KeepsHazardSafe(w: World, m: Machine)
    requires SignalsInv(w, m) && HazardSafe(m.pipe)
    ensures HazardSafe(FullCycle(w, m).pipe)
  {
    hide FullCycle, NoteAll, UsesMemory, DataAddress, AfterSquash, NextIDelay, NextDDelay, AsksI, AsksD,
      UsesRs, UsesRt, WritesRt, WritesRd, IsLoad;
    CycleFields(w, m);
    SquashedLatches(m);
    NopReadsNothing();
  }

  lemma NopReadsNothing()
    ensures forall x :: !BranchReads(NOP, x)
    ensures forall x: Info :: !LoadUseHazard(NOP, x) && !LoadUseHazard(x, NOP) && !LoadBranchHazard(x, NOP)
    ensures forall x: Info :: !ArithmeticHazard(NOP, x) && !ArithmeticHazard(x, NOP)
    ensures !IsLoad(NOP) && !IsBranch(NOP)
  {
  }

  // ----- order of retirement

  /** Moving everything one latch on, with a bubble somewhere, keeps the sequence. */
  lemma ShiftedFlight(r: seq<Info>, p: Latches, p': Latches)
    requires p'.wb == p.mem
    requires
      || (p'.mem == p.ex && p'.ex == p.id && p'.id == p.ifi && p'.ifi == NOP)
      || (p'.mem == p.ex && p'.ex == p.id && p'.id == NOP && p'.ifi == p.ifi)
      || (p'.mem == p.ex && p'.ex == NOP && p'.id == p.id && p'.ifi == p.ifi)
    ensures (r + Opt(p'.wb)) + Flight(p') == r + Flight(p)
  {
    assert Opt(NOP) == [];
    var rest := Opt(p.ex) + Opt(p.id) + Opt(p.ifi);
    assert (r + Opt(p.mem)) + rest == r + (Opt(p.mem) + Opt(p.ex) + Opt(p.id) + Opt(p.ifi));
  }

  /** The sequence after a fetch. */
  lemma FetchedFlight(r: seq<Info>, p: Latches, x: Info)
    requires x != NOP
    ensures (r + Opt(p.mem)) + Flight(Latches(x, p.ifi, p.id, p.ex, p.mem)) == (r + Flight(p)) + [x]
  {
  }

  /** The sequence without its last instruction, when that one is squashed. */
  lemma SquashedFlight(r: seq<Info>, p: Latches, s: seq<Info>, x: Info)
    requires p.ifi == NOP && r + Flight(p) == s + [x]
    ensures p.id != NOP ==> r + Flight(p.(id := NOP)) == s
    ensures p.id == NOP && p.ex != NOP ==> r + Flight(p.(ex := NOP)) == s
  {
    var all := r + Flight(p);
    assert all[..|all| - 1] == s;
    if p.id != NOP {
      assert all == (r + Opt(p.mem) + Opt(p.ex)) + [p.id];
      assert r + Flight(p.(id := NOP)) == r + Opt(p.mem) + Opt(p.ex);
    } else if p.ex != NOP {
      assert all == (r + Opt(p.mem)) + [p.ex];
      assert r + Flight(p.(ex := NOP)) == r + Opt(p.mem);
    }
  }

  /** The retired instructions and those in flight after a squash. */
  lemma OrderAfterSquash(w: World, m: Machine, l: Log)
    requires ExceptionInv(m) && OrderInv(w, m, l) && !m.handlingException
    ensures l.retired + Flight(AfterSquash(m)) == Kept(w.program, m.fetched)
    ensures AfterSquash(m).mem == m.pipe.mem && AfterSquash(m).ifi == m.pipe.ifi
    ensures !ExceptionInFlight(AfterSquash(m))
  {
    hide Kept, Flight;
    NopIsGood();
    if ExceptionInFlight(m.pipe) {
      SquashedFlight(l.retired, m.pipe, Kept(w.program, m.fetched), w.program(m.fetched - 1));
    } else {
      assert AfterSquash(m) == m.pipe;
      assert Kept(w.program, m.fetched) + [] == Kept(w.program, m.fetched);
    }
  }

  lemma OrderWhenFetching(w: World, m: Machine, l: Log)
    requires GoodProgram(w.program) && ExceptionInv(m) && OrderInv(w, m, l) && Fetches(m)
    ensures var p, x := NextPipe(w, m), w.program(m.fetched);
      && (l.retired + Opt(p.wb)) + Flight(p) ==
           Kept(w.program, m.fetched + 1) + (if Excepting(x) then [x] else [])
      && (ExceptionInFlight(p) <==> Excepting(x))
  {
    hide Kept, Flight, AfterSquash;
    var x := w.program(m.fetched);
    assert x != NOP;
    OrderAfterSquash(w, m, l);
    FetchedFlight(l.retired, AfterSquash(m), x);
    LastKept(w.program, m.fetched + 1);
    assert Kept(w.program, m.fetched) + [] == Kept(w.program, m.fetched);
    assert (Kept(w.program, m.fetched) + [x]) + [] == Kept(w.program, m.fetched) + [x];
  }

  lemma OrderOtherwise(w: World, m: Machine, l: Log)
    requires SignalsInv(w, m) && ExceptionInv(m) && HaltInv(m) && !Fetches(m)
    ensures var p := NextPipe(w, m);
      && (l.retired + Opt(p.wb)) + Flight(p) == l.retired + Flight(m.pipe)
      && (ExceptionInFlight(p) <==> ExceptionInFlight(m.pipe))
  {
    hide Flight, UsesMemory, LoadUseNow, LoadBranchEx, LoadBranchMem, ArithmeticNow;
    NopIsGood();
    var p := NextPipe(w, m);
    if m.flags.memStall {
      SameFlight(l.retired, m.pipe, p);
    } else {
      if m.pipe.id == NOP {
        BubbleIsHarmless(m.pipe);
      }
      if !AnyStall(m.flags) {
        assert m.squashStage == NONE;
        assert AfterSquash(m) == m.pipe;
        assert p.ifi == NOP;
      } else if m.flags.idStall {
        assert StallStage(m.flags) == ID;
      } else {
        assert m.flags.ifStall;
        assert StallStage(m.flags) == IF;
      }
      ShiftedFlight(l.retired, m.pipe, p);
    }
  }

  lemma SameFlight(r: seq<Info>, p: Latches, p': Latches)
    requires p' == p.(wb := NOP)
    ensures (r + Opt(p'.wb)) + Flight(p') == r + Flight(p)
  {
    assert r + [] == r;
  }

  /** Stalls and squashes neither lose, duplicate nor reorder an instruction. */
  lemma KeepsOrder(w: World, m: Machine, l: Log)
    requires GoodProgram(w.program) && SignalsInv(w, m) && ExceptionInv(m) && HaltInv(m) && OrderInv(w, m, l)
    ensures var n := FullCycle(w, m); OrderInv(w, n, Observe(m, n, l))
  {
    hide FullCycle, Kept, Flight, NextPipe, NoteAll, Hazard, AsksI, AsksD, NextIDelay, NextDDelay, Detected,
      ExceptionInFlight;
    CycleFields(w, m);
    if Fetches(m) {
      OrderWhenFetching(w, m, l);
    } else {
      OrderOtherwise(w, m, l);
    }
  }

  lemma LastKept(p: nat -> Info, n: nat)
    requires n > 0
    ensures Kept(p, n) == Kept(p, n - 1) + (if Excepting(p(n - 1)) then [] else [p(n - 1)])
  {
  }

  // ----- cache accesses

  lemma AddressesAppend(s: seq<Info>, x: Info)
    ensures Addresses(s + [x]) == Addresses(s) + (if UsesMemory(x) then [DataAddress(x)] else [])
  {
    assert (s + [x])[..|s|] == s;
  }

  /** What MEM holds next, and what has retired by then. */
  lemma MemoryOrder(w: World, m: Machine)
    requires SignalsInv(w, m) && ExceptionInv(m)
    ensures var p := NextPipe(w, m);
      if m.flags.memStall then p.mem == m.pipe.mem && p.wb == NOP else p.wb == m.pipe.mem
  {
    hide Hazard, UsesMemory;
  }

  /** An instruction cache access in the cycle of a fetch, and only then. */
  lemma AsksWhenFetching(w: World, m: Machine)
    requires GoodProgram(w.program)
    ensures AsksI(w, m) <==> Fetches(m)
    ensures Fetches(m) ==> NextPipe(w, m).ifi == w.program(m.fetched)
  {
    hide GoodRecord, AfterSquash;
    assert w.program(m.fetched) != NOP;
  }

  lemma KeepsAccesses(w: World, m: Machine, l: Log)
    requires GoodProgram(w.program) && SignalsInv(w, m) && ExceptionInv(m) && AccessInv(w, m, l)
    requires ExceptionInv(FullCycle(w, m))
    ensures var n := FullCycle(w, m); AccessInv(w, n, Observe(m, n, l))
  {
    hide FullCycle, NextPipe, NoteAll, Hazard, NextIDelay, NextDDelay, Detected, UsesMemory, DataAddress,
      Addresses, Patience, AsksI, Fetches;
    CycleFields(w, m);
    AsksWhenFetching(w, m);
    MemoryOrder(w, m);
    NopIsGood();
    var n := FullCycle(w, m);
    var before := l.retired + Opt(m.pipe.mem);
    var after := Observe(m, n, l).retired + Opt(n.pipe.mem);
    if m.flags.memStall {
      assert after == before;
    } else {
      AddressesAppend(before, n.pipe.mem);
      assert after == if n.pipe.mem == NOP then before else before + [n.pipe.mem];
    }
  }

  // ----- counting cycles

  lemma OneMore(c: nat, latency: nat)
    ensures (c + 1) * latency == c * latency + latency
  {
  }

  lemma MissesAppend(hit: (seq<Word>, Word) -> bool, h: seq<Word>, a: Word)
    ensures CountMisses(hit, h + [a]) == CountMisses(hit, h) + Bit(!hit(h, a))
  {
    assert (h + [a])[..|h|] == h;
  }

  /** A pending data miss costs one stall at MEM each cycle until it is served. */
  lemma KeepsMemoryCount(w: World, m: Machine, l: Log)
    requires SignalsInv(w, m) && CountInv(w, m, l)
    ensures var n := FullCycle(w, m);
      Observe(m, n, l).memStalls + RemainingD(n) == CountMisses(w.dHit, n.dAccesses) * w.dLatency
  {
    hide FullCycle, NextPipe, NoteAll, Hazard, NextIDelay, Detected, UsesMemory, DataAddress, CountMisses,
      Patience, Pending, Extra;
    CycleFields(w, m);
    var n := FullCycle(w, m);
    if AsksD(w, m) {
      var a := DataAddress(n.pipe.mem);
      MissesAppend(w.dHit, m.dAccesses, a);
      OneMore(CountMisses(w.dHit, m.dAccesses), w.dLatency);
    } else {
      assert m.dAccesses + [] == m.dAccesses;
    }
  }

  /** A pending instruction miss costs one stall at IF each cycle, or is hidden by another stall. */
  lemma KeepsFetchCount(w: World, m: Machine, l: Log)
    requires GoodProgram(w.program) && SignalsInv(w, m) && CountInv(w, m, l)
    ensures var n := FullCycle(w, m);
      Observe(m, n, l).ifStalls + Observe(m, n, l).ifHidden + RemainingI(n)
        == CountMisses(w.iHit, n.iAccesses) * w.iLatency
  {
    hide FullCycle, NextPipe, NoteAll, Hazard, NextDDelay, Detected, UsesMemory, DataAddress, CountMisses,
      Patience, Pending, Extra, AsksD;
    CycleFields(w, m);
    var n := FullCycle(w, m);
    if AsksI(w, m) {
      MissesAppend(w.iHit, m.iAccesses, n.pipe.ifi.pc);
      OneMore(CountMisses(w.iHit, m.iAccesses), w.iLatency);
    } else {
      assert m.iAccesses + [] == m.iAccesses;
    }
  }

  /** What is pending goes down by one exactly in the cycles that move without a fetch. */
  lemma PendingCountsDown(w: World, m: Machine)
    requires GoodProgram(w.program) && RecordsInv(w, m) && SignalsInv(w, m) && ExceptionInv(m) && HaltInv(m)
    ensures var n := FullCycle(w, m);
      && (Fetches(m) ==> Pending(m) == 0 && Pending(n) == ExtraOf(w.program(m.fetched)))
      && (AnyStall(m.flags) ==> Pending(n) == Pending(m))
      && (!AnyStall(m.flags) && !Fetches(m) ==>
            if Drained(m) then Pending(n) == Pending(m) == 0 else Pending(n) == Pending(m) - 1)
      && (Drained(m) ==> !AnyStall(m.flags) && !Fetches(m) && Drained(n))
  {
    hide FullCycle, Hazard, NoteAll, UsesMemory, UsesRs, UsesRt, IsBranch, DataAddress, NextIDelay, NextDDelay;
    CycleFields(w, m);
    ExecutedIsGood(w, m, m.pipe.ifi);
    ExecutedIsGood(w, m, m.pipe.id);
    ExecutedIsGood(w, m, m.pipe.ex);
    ExecutedIsGood(w, m, m.pipe.mem);
    if m.pipe.id == NOP || m.pipe.id.isHalt || !m.pipe.id.isValid {
      NoHazardFor(w, m, m.pipe);
    }
    if Fetches(m) {
      assert GoodRecord(w.program(m.fetched));
    }
    KeepsExceptions(w, m);
    KeepsHalt(w, m);
  }

  lemma ExtraStep(p: nat -> Info, n: nat)
    ensures Extra(p, n + 1) == Extra(p, n) + ExtraOf(p(n))
  {
  }

  lemma KeepsCount(w: World, m: Machine, l: Log)
    requires GoodProgram(w.program) && RecordsInv(w, m) && SignalsInv(w, m) && ExceptionInv(m) && HaltInv(m)
    requires CountInv(w, m, l)
    ensures var n := FullCycle(w, m); CountInv(w, n, Observe(m, n, l))
  {
    hide FullCycle, NextPipe, NoteAll, Hazard, NextIDelay, NextDDelay, Detected, UsesMemory, DataAddress, CountMisses,
      Patience, Pending, Extra, AsksD, AsksI, Drained, RemainingD, RemainingI, ExtraOf;
    CycleFields(w, m);
    KeepsMemoryCount(w, m, l);
    KeepsFetchCount(w, m, l);
    PendingCountsDown(w, m);
    ExtraStep(w.program, m.fetched);
  }

  // ----- stalls in ID

  /** Each stall at ID uses up some of what the hazards of its instruction allow. */
  lemma HazardsGoDown(p: Latches)
    requires Hazard(p)
    ensures HazardsLeft(p.(wb := p.mem, mem := p.ex, ex := NOP)) < HazardsLeft(p)
  {
    hide UsesRs, UsesRt, WritesRt, WritesRd;
    NopReadsNothing();
  }

  /** What an instruction finds in front of it never exceeds its patience. */
  lemma HazardsWithinPatience(p: Latches)
    ensures HazardsLeft(p) <= Patience(p.id)
  {
    hide WritesRt, WritesRd, UsesRs, UsesRt;
    NopReadsNothing();
  }

  lemma TotalPatienceStep(p: nat -> Info, n: nat)
    ensures TotalPatience(p, n + 1) == TotalPatience(p, n) + Patience(p(n))
  {
  }

  /** The latch that comes into ID, and the ones that stay. */
  lemma FrontLatches(w: World, m: Machine)
    requires SignalsInv(w, m) && ExceptionInv(m)
    ensures var p, q, stage := m.pipe, NextPipe(w, m), StallStage(m.flags);
      match stage
      case NONE => q.id == p.ifi && (q.ifi == if Fetches(m) then w.program(m.fetched) else NOP)
      case IF => q.id == NOP && q.ifi == p.ifi && !Fetches(m)
      case ID => q == p.(wb := p.mem, mem := p.ex, ex := NOP) && !Fetches(m)
      case _ => q == p.(wb := NOP) && !Fetches(m)
  {
    hide Hazard, UsesMemory;
  }

  lemma KeepsPatience(w: World, m: Machine, l: Log)
    requires GoodProgram(w.program) && SignalsInv(w, m) && ExceptionInv(m)
    requires PatienceInv(w, m, l)
    ensures var n := FullCycle(w, m); PatienceInv(w, n, Observe(m, n, l))
  {
    hide FullCycle, NextPipe, NoteAll, Hazard, NextIDelay, NextDDelay, Detected, UsesMemory, DataAddress,
      Patience, AsksD, AsksI, Drained, Fetches, TotalPatience, HazardsLeft;
    CycleFields(w, m);
    FrontLatches(w, m);
    var n := FullCycle(w, m);
    NopPatience();
    TotalPatienceStep(w.program, m.fetched);
    HazardsWithinPatience(n.pipe);
    if StallStage(m.flags) == ID {
      HazardsGoDown(m.pipe);
    } else if StallStage(m.flags) == MEM {
      SameHazards(m.pipe);
    }
  }

  lemma NopPatience()
    ensures Patience(NOP) == 0
  {
  }

  lemma SameHazards(p: Latches)
    ensures HazardsLeft(p.(wb := NOP)) == HazardsLeft(p)
  {
  }

  // ----- remembered dependencies

  /** Noting a dependency counts it exactly when it is new, and forgets no dependency of
      the same consumer as long as fewer than five are recent. */
  lemma NoteRemembers(t: Tally, pairs: set<(nat, nat)>, recent: nat, cond: bool, q: (nat, nat))
    requires Remembers(t, pairs, recent, q.1) && recent < 5
    ensures var t' := Note(t, cond, q);
      var pairs' := pairs + (if cond then {q} else {});
      && t'.count >= t.count
      && t'.count - t.count == Bit(cond && q !in pairs)
      && Remembers(t', pairs', recent + (t'.count - t.count), q.1)
  {
    var t' := Note(t, cond, q);
    if cond {
      assert q in t.lut <==> q in pairs;
      if q !in t.lut {
        AppendRemembers(t.lut, pairs, recent, q);
        assert |pairs + {q}| == |pairs| + 1;
      } else {
        assert pairs + {q} == pairs;
      }
    }
  }

  lemma AppendRemembers(lut: seq<(nat, nat)>, pairs: set<(nat, nat)>, recent: nat, q: (nat, nat))
    requires |lut| <= 5 && recent <= |lut| && recent < 5
    requires forall x :: x in lut ==> x in pairs
    requires forall x :: x in pairs && x.1 == q.1 ==> x in lut[|lut| - recent..]
    ensures var a := Append(lut, q);
      && |a| <= 5 && recent + 1 <= |a|
      && (forall x :: x in a ==> x in pairs + {q})
      && (forall x :: x in pairs + {q} && x.1 == q.1 ==> x in a[|a| - (recent + 1)..])
  {
    var a := Append(lut, q);
    assert a[|a| - (recent + 1)..] == lut[|lut| - recent..] + [q];
  }

  lemma OneDetection(t: Tally, pairs: set<(nat, nat)>, recent: nat, p: Latches, cond: bool, x: Info)
    requires p.id != NOP && Bounded(t, pairs, recent, p)
    requires x == p.ex || x == p.mem
    requires cond ==> x != NOP
    ensures var q := (x.instructionID, p.id.instructionID);
      var t', pairs' := Note(t, cond, q), pairs + (if cond then {q} else {});
      t'.count >= t.count && Bounded(t', pairs', recent + (t'.count - t.count), p)
  {
    hide Remembers, Note;
    NoteRemembers(t, pairs, recent, cond, (x.instructionID, p.id.instructionID));
  }

  /** The three places that detect a dependency, together. */
  lemma DetectionRemembers(t: Tally, pairs: set<(nat, nat)>, recent: nat, p: Latches)
    requires p.id != NOP && Bounded(t, pairs, recent, p)
    ensures var t', pairs' := NoteAll(t, p), pairs + Detected(p);
      t'.count >= t.count && Bounded(t', pairs', recent + (t'.count - t.count), p)
  {
    hide Bounded, Note, LoadUseHazard, LoadBranchHazard;
    var ex, mem := (p.ex.instructionID, p.id.instructionID), (p.mem.instructionID, p.id.instructionID);
    var one, two, three := LoadUseNow(p), LoadBranchEx(p), LoadBranchMem(p);
    assert !IsLoad(NOP);
    var pairs1 := pairs + (if one then {ex} else {});
    var pairs2 := pairs1 + (if two then {ex} else {});
    var t1 := Note(t, one, ex);
    var t2 := Note(t1, two, ex);
    OneDetection(t, pairs, recent, p, one, p.ex);
    OneDetection(t1, pairs1, recent + (t1.count - t.count), p, two, p.ex);
    OneDetection(t2, pairs2, recent + (t2.count - t.count), p, three, p.mem);
    assert pairs2 + (if three then {mem} else {}) == pairs + Detected(p);
  }

  function NextRecent(m: Machine, l: Log): nat {
    if StallStage(m.flags) == NONE || StallStage(m.flags) == IF then 0 else l.recent
  }

  /** What is remembered about the instruction that is in ID next. */
  lemma NextConsumer(w: World, m: Machine, l: Log)
    requires SignalsInv(w, m) && ExceptionInv(m) && RecordsInv(w, m) && TallyInv(m, l)
    requires NextPipe(w, m).id != NOP
    ensures Bounded(Tally(m.lut, m.loadStalls), l.pairs, NextRecent(m, l), NextPipe(w, m))
  {
    hide NextPipe, Executed, Counted, SignalsInv, ExceptionInv;
    FrontLatches(w, m);
  }

  lemma NothingDetected(p: Latches)
    requires p.id == NOP
    ensures Detected(p) == {}
  {
  }

  lemma ConsumersAreOld(w: World, m: Machine, l: Log)
    requires SignalsInv(w, m) && ExceptionInv(m) && OldConsumers(m, l.pairs)
    requires RecordsInv(w, FullCycle(w, m))
    ensures OldConsumers(FullCycle(w, m), l.pairs + Detected(FullCycle(w, m).pipe))
  {
    hide FullCycle, NextPipe, NoteAll, Hazard, NextIDelay, NextDDelay, Detected, UsesMemory, DataAddress,
      AsksD, AsksI, Fetches, SignalsInv, ExceptionInv;
    CycleFields(w, m);
    FrontLatches(w, m);
    var n := FullCycle(w, m);
    DetectedConsumer(n.pipe);
    if n.pipe.id == NOP {
      NothingDetected(n.pipe);
    }
  }

  lemma KeepsTally(w: World, m: Machine, l: Log)
    requires RecordsInv(w, m) && SignalsInv(w, m) && ExceptionInv(m) && TallyInv(m, l)
    requires RecordsInv(w, FullCycle(w, m))
    ensures var n := FullCycle(w, m); TallyInv(n, Observe(m, n, l))
  {
    hide FullCycle, NextPipe, NoteAll, Hazard, NextIDelay, NextDDelay, Detected, UsesMemory, DataAddress,
      Patience, AsksD, AsksI, Drained, Fetches, SignalsInv, ExceptionInv, RecordsInv, Counted, Bounded, OldConsumers;
    CycleFields(w, m);
    ConsumersAreOld(w, m, l);
    var n, t := FullCycle(w, m), Tally(m.lut, m.loadStalls);
    if n.pipe.id == NOP {
      BubbleIsHarmless(n.pipe);
      NoHazardNoNote(t, n.pipe);
      NothingDetected(n.pipe);
      assert l.pairs + {} == l.pairs;
    } else {
      NextConsumer(w, m, l);
      DetectionRemembers(t, l.pairs, NextRecent(m, l), n.pipe);
      BoundedIsCounted(Tally(n.lut, n.loadStalls), l.pairs + Detected(n.pipe),
        NextRecent(m, l) + (n.loadStalls - m.loadStalls), n.pipe);
    }
  }

  lemma BoundedIsCounted(t: Tally, pairs: set<(nat, nat)>, recent: nat, p: Latches)
    requires Bounded(t, pairs, recent, p)
    ensures Counted(t, pairs)
  {
  }

  lemma DetectedConsumer(p: Latches)
    ensures forall q :: q in Detected(p) ==> q.1 == p.id.instructionID
  {
  }

  // ----- all together

  lemma StartInv(w: World)
    ensures Inv(w, Start(), EMPTY_LOG)
  {
    assert Flight(Start().pipe) == [];
  }

  lemma KeepsInv(w: World, m: Machine, l: Log)
    requires GoodProgram(w.program) && Inv(w, m, l)
    ensures var n := Cycle(w, m); Inv(w, n, Observe(m, n, l))
  {
    hide Cycle, FullCycle, RecordsInv, SignalsInv, ExceptionInv, HaltInv, OrderInv, AccessInv, CountInv,
      PatienceInv, TallyInv, ShownInv, HazardSafe, FirstHaltInv, GoodProgram, Observe;
    EarlyExitSkipsNothing(w, m);
    KeepsRecords(w, m);
    KeepsSignals(w, m);
    KeepsExceptions(w, m);
    KeepsHalt(w, m);
    KeepsOrder(w, m, l);
    KeepsAccesses(w, m, l);
    KeepsCount(w, m, l);
    KeepsPatience(w, m, l);
    KeepsHazardSafe(w, m);
    KeepsTally(w, m, l);
    KeepsShown(w, m);
    KeepsFirstHalt(w, m);
  }

  /** Every state of every run satisfies every invariant. */
  lemma {:induction false} AlwaysInv(w: World, k: nat)
    requires GoodProgram(w.program)
    ensures Inv(w, RunFor(w, k).m, RunFor(w, k).log)
  {
    hide Inv, Cycle, Observe, GoodProgram;
    if k == 0 {
      StartInv(w);
    } else {
      AlwaysInv(w, k - 1);
      KeepsInv(w, RunFor(w, k - 1).m, RunFor(w, k - 1).log);
    }
  }
}
