/** What the pipeline guarantees for every program and every pair of caches. */
module PipelineTheorems {
  import opened Bits
  import opened Emulation
  import opened Pipeline
  import opened PipelineHistory
  import opened PipelineInvariants

  // ----- order

  ghost predicate Ascending(s: seq<Info>) {
    forall i, j :: 0 <= i < j < |s| ==> s[i].instructionID < s[j].instructionID
  }

  lemma {:induction false} KeptAscends(p: nat -> Info, n: nat)
    requires GoodProgram(p)
    ensures Ascending(Kept(p, n))
    ensures forall i :: 0 <= i < |Kept(p, n)| ==> Kept(p, n)[i].instructionID < n
  {
    hide GoodRecord;
    if n > 0 {
      KeptAscends(p, n - 1);
      assert p(n - 1).instructionID == n - 1;
    }
  }

  /** The trace up to now without the squashed instructions. */
  function Live(w: World, m: Machine): seq<Info>
    requires ExceptionInFlight(m.pipe) ==> m.fetched > 0
  {
    Kept(w.program, m.fetched)
    + (if ExceptionInFlight(m.pipe) then [w.program(m.fetched - 1)] else [])
  }

  lemma LiveAscends(w: World, m: Machine)
    requires GoodProgram(w.program)
    requires ExceptionInFlight(m.pipe) ==> m.fetched > 0 && Excepting(w.program(m.fetched - 1))
    ensures Ascending(Live(w, m))
  {
    hide Kept, GoodProgram, ExceptionInFlight, Ascending;
    var s := Kept(w.program, m.fetched);
    assert s + [] == s;
    KeptAscends(w.program, m.fetched);
    if ExceptionInFlight(m.pipe) {
      LastKept(w.program, m.fetched);
      var older := Kept(w.program, m.fetched - 1);
      assert older + [] == older;
      KeptAscends(w.program, m.fetched - 1);
      NumberOf(w.program, m.fetched - 1);
      AscendingAppend(older, w.program(m.fetched - 1), m.fetched - 1);
    }
  }

  /** In order and exactly once, in every state of every run: what entered WB, followed by
      what is in MEM, EX, ID and IF, is the executed trace without the squashed
      instructions, and dynamic numbers strictly increase along it. */
  lemma InOrderExactlyOnce(w: World, k: nat)
    requires GoodProgram(w.program)
    ensures var m, l := RunFor(w, k).m, RunFor(w, k).log;
      && (ExceptionInFlight(m.pipe) ==> m.fetched > 0 && Excepting(w.program(m.fetched - 1)))
      && l.retired + Flight(m.pipe) == Live(w, m)
      && Ascending(l.retired + Flight(m.pipe))
  {
    hide RunFor, Flight, Kept, GoodProgram, ExceptionInFlight, Ascending, RecordsInv, SignalsInv, ExceptionInv,
      HaltInv, AccessInv, CountInv, PatienceInv, TallyInv, ShownInv, HazardSafe, FirstHaltInv;
    AlwaysInv(w, k);
    LiveAscends(w, RunFor(w, k).m);
  }

  lemma NumberOf(p: nat -> Info, i: nat)
    requires GoodProgram(p)
    ensures p(i).instructionID == i
  {
    assert GoodRecord(p(i));
  }

  lemma AscendingAppend(s: seq<Info>, x: Info, n: nat)
    requires Ascending(s) && (forall i :: 0 <= i < |s| ==> s[i].instructionID < n) && x.instructionID == n
    ensures Ascending(s + [x])
  {
  }

  // ----- exceptions

  function LatchAt(p: Latches, stage: Stage): Info {
    match stage
    case IF => p.ifi
    case ID => p.id
    case EX => p.ex
    case MEM => p.mem
    case WB => p.wb
    case NONE => NOP
  }

  /** Whenever a squash is pending, for however long, what it will remove is the excepting
      instruction that was executed last, and the only one in flight. */
  lemma SquashRemovesTheException(w: World, k: nat)
    requires GoodProgram(w.program)
    ensures var m := RunFor(w, k).m;
      && !Excepting(m.pipe.mem) && !Excepting(m.pipe.wb)
      && (m.squashStage != NONE ==>
            var x := LatchAt(m.pipe, m.squashStage);
            && m.fetched > 0 && x == w.program(m.fetched - 1) && Excepting(x) && !x.isHalt
            && !ExceptionInFlight(AfterSquash(m)) && !m.handlingException)
      && (ExceptionInFlight(m.pipe) ==> m.squashStage != NONE || m.handlingException)
  {
    hide RunFor, Kept, GoodRecord, SignalsInv, AccessInv, CountInv, PatienceInv, TallyInv, ShownInv, HazardSafe,
      HaltInv, FirstHaltInv, Flight;
    AlwaysInv(w, k);
    var Run(m, l) := RunFor(w, k);
    NopIsGood();
    ExecutedIsGood(w, m, m.pipe.id);
    ExecutedIsGood(w, m, m.pipe.ex);
    if m.squashStage != NONE {
      OrderAfterSquash(w, m, l);
      var x := LatchAt(m.pipe, m.squashStage);
      LastOfFlight(l.retired, m.pipe);
      GoodHalt(x);
    }
  }

  lemma GoodHalt(x: Info)
    requires GoodRecord(x) && Excepting(x)
    ensures !x.isHalt
  {
  }

  lemma LastOfFlight(r: seq<Info>, p: Latches)
    requires p.ifi == NOP
    ensures var s := r + Flight(p);
      && (p.id != NOP ==> |s| > 0 && s[|s| - 1] == p.id)
      && (p.id == NOP && p.ex != NOP ==> |s| > 0 && s[|s| - 1] == p.ex)
  {
  }

  // ----- hazards

  /** No instruction ever enters EX while the tables say it must wait for the one in MEM
      or WB. */
  lemma HazardsNeverPass(w: World, k: nat)
    requires GoodProgram(w.program)
    ensures HazardSafe(RunFor(w, k).m.pipe)
  {
    hide RunFor;
    AlwaysInv(w, k);
  }

  /** The signals for EX and WB are never raised. */
  lemma UnusedSignals(w: World, k: nat)
    requires GoodProgram(w.program)
    ensures !RunFor(w, k).m.flags.exStall && !RunFor(w, k).m.flags.wbStall
  {
    hide RunFor;
    AlwaysInv(w, k);
  }

  /** In every state: each instruction fetched was looked up once in the instruction cache,
      each load or store that entered MEM once in the data cache, both in program order. */
  lemma CachesFollowTheProgram(w: World, k: nat)
    requires GoodProgram(w.program)
    ensures var m, l := RunFor(w, k).m, RunFor(w, k).log;
      && m.iAccesses == Pcs(w.program, m.fetched) && |m.iAccesses| == m.fetched
      && m.dAccesses == Addresses(l.retired + Opt(m.pipe.mem))
  {
    hide RunFor, GoodProgram, Pcs, Addresses, Kept, RecordsInv, SignalsInv, ExceptionInv, HaltInv, CountInv,
      PatienceInv, TallyInv, ShownInv, HazardSafe, FirstHaltInv, OrderInv;
    AlwaysInv(w, k);
    KeptLength(w.program, RunFor(w, k).m.fetched);
  }

  /** In every state: an instruction suffered at most two stalls in ID, and only a branch
      more than one; the stalls at IF and MEM are paid for by misses. */
  lemma StallsAreBounded(w: World, k: nat)
    requires GoodProgram(w.program)
    ensures var m, l := RunFor(w, k).m, RunFor(w, k).log;
      && l.idHere <= Patience(m.pipe.id) <= 2 && (l.idHere == 2 ==> IsBranch(m.pipe.id))
      && l.idStalls <= TotalPatience(w.program, m.fetched) <= 2 * m.fetched
      && l.ifStalls <= CountMisses(w.iHit, m.iAccesses) * w.iLatency
      && l.memStalls <= CountMisses(w.dHit, m.dAccesses) * w.dLatency
  {
    hide RunFor, GoodProgram, Pcs, Addresses, Kept, RecordsInv, SignalsInv, ExceptionInv, HaltInv, AccessInv,
      TallyInv, ShownInv, HazardSafe, FirstHaltInv, OrderInv, CountMisses, TotalPatience, HazardsLeft, Extra, Pending,
      UsesRs, UsesRt, IsBranch;
    AlwaysInv(w, k);
    PatienceAtMostTwo(w.program, RunFor(w, k).m.fetched);
  }

  lemma {:induction false} PatienceAtMostTwo(p: nat -> Info, n: nat)
    ensures TotalPatience(p, n) <= 2 * n
  {
    hide UsesRs, UsesRt, IsBranch;
    if n > 0 {
      PatienceAtMostTwo(p, n - 1);
    }
  }

  /** A dependency that was visible in the latches in some state up to the k-th. */
  ghost predicate EverDetected(w: World, k: nat, q: (nat, nat)) {
    exists j: nat :: j <= k && q in Detected(RunFor(w, j).m.pipe)
  }

  lemma {:induction false} PairsAreDetected(w: World, k: nat, q: (nat, nat))
    ensures q in RunFor(w, k).log.pairs <==> EverDetected(w, k, q)
  {
    hide Cycle, Detected;
    if k == 0 {
      NothingDetected(Start().pipe);
      assert Detected(RunFor(w, 0).m.pipe) == {};
    } else {
      PairsAreDetected(w, k - 1, q);
      assert RunFor(w, k).log.pairs == RunFor(w, k - 1).log.pairs + Detected(RunFor(w, k).m.pipe);
    }
  }

  /** The load stalls counted are the distinct dependencies ever visible in the latches,
      although only five are remembered. */
  lemma LoadStallsAreDistinct(w: World, k: nat)
    requires GoodProgram(w.program)
    ensures RunFor(w, k).m.loadStalls == |RunFor(w, k).log.pairs| && |RunFor(w, k).m.lut| <= 5
    ensures forall q :: q in RunFor(w, k).log.pairs <==> EverDetected(w, k, q)
  {
    hide RunFor, EverDetected, Bounded, OldConsumers;
    AlwaysInv(w, k);
    forall q ensures q in RunFor(w, k).log.pairs <==> EverDetected(w, k, q) {
      PairsAreDetected(w, k, q);
    }
  }

  // ----- no deadlock

  /** An upper bound on the cycles until the pipeline moves. */
  function Wait(w: World, m: Machine): nat {
    HazardsLeft(m.pipe) + RemainingI(m) + RemainingD(m)
    + w.dLatency * (Bit(m.pipe.ex != NOP) + Bit(m.pipe.id != NOP))
  }

  lemma WaitIsBounded(w: World, m: Machine)
    requires SignalsInv(w, m)
    ensures Wait(w, m) <= 2 + w.iLatency + 3 * w.dLatency
  {
    hide Hazard, LoadBranchEx;
    var e := Bit(m.pipe.ex != NOP) + Bit(m.pipe.id != NOP);
    MulMonotone(e, 2, w.dLatency);
  }

  /** Every stall brings the pipeline closer to moving. */
  lemma StallsWearOff(w: World, m: Machine)
    requires GoodProgram(w.program) && SignalsInv(w, m) && ExceptionInv(m) && AnyStall(m.flags)
    ensures Wait(w, FullCycle(w, m)) < Wait(w, m)
  {
    hide FullCycle, NoteAll, UsesMemory, DataAddress, NextPipe, HazardsLeft, Hazard;
    CycleFields(w, m);
    FrontLatches(w, m);
    AsksWhenFetching(w, m);
    BackLatches(w, m);
    var n := FullCycle(w, m);
    if StallStage(m.flags) == MEM {
      SameHazards(m.pipe);
    } else if StallStage(m.flags) == ID {
      HazardsGoDown(m.pipe);
    } else {
      BubbleHazards(n.pipe);
    }
    assert w.dLatency * 2 == w.dLatency + w.dLatency;
  }

  lemma BubbleHazards(p: Latches)
    requires p.id == NOP
    ensures HazardsLeft(p) == 0
  {
    BubbleIsHarmless(p);
  }

  /** What MEM and EX hold after a stall. */
  lemma BackLatches(w: World, m: Machine)
    requires SignalsInv(w, m) && AnyStall(m.flags)
    ensures var p, q := m.pipe, NextPipe(w, m);
      match StallStage(m.flags)
      case MEM => q.mem == p.mem && q.ex == p.ex
      case ID => q.mem == p.ex && q.ex == NOP
      case IF => q.mem == p.ex && q.ex == p.id
      case _ => false
    ensures !UsesMemory(NOP)
  {
    hide Hazard;
  }

  /** From every state of a run, within a fixed number of cycles the pipeline moves. */
  lemma NoDeadlock(w: World, k: nat)
    requires GoodProgram(w.program)
    ensures exists j :: k <= j <= k + 2 + w.iLatency + 3 * w.dLatency && !AnyStall(RunFor(w, j).m.flags)
  {
    hide RunFor, Wait;
    AlwaysInv(w, k);
    WaitIsBounded(w, RunFor(w, k).m);
    MovesWithinWait(w, k);
  }

  lemma {:induction false} MovesWithinWait(w: World, k: nat)
    requires GoodProgram(w.program)
    ensures exists j :: k <= j <= k + Wait(w, RunFor(w, k).m) && !AnyStall(RunFor(w, j).m.flags)
    decreases Wait(w, RunFor(w, k).m)
  {
    hide Cycle, FullCycle, Wait, AnyStall, GoodProgram, Observe;
    var m := RunFor(w, k).m;
    if AnyStall(m.flags) {
      AlwaysInv(w, k);
      StallsWearOff(w, m);
      EarlyExitSkipsNothing(w, m);
      assert RunFor(w, k + 1).m == FullCycle(w, m);
      MovesWithinWait(w, k + 1);
    }
  }

  // ----- the end of a run

  /** The n-th instruction is the first to halt. */
  ghost predicate HaltsFirst(p: nat -> Info, n: nat) {
    p(n).isHalt && forall i: nat :: i < n ==> !p(i).isHalt
  }

  /** The run ends with HALT in the cycle after the k-th state, and not before. */
  ghost predicate EndsAt(w: World, k: nat) {
    Halts(w, RunFor(w, k).m) && forall j: nat :: j < k ==> !Halts(w, RunFor(w, j).m)
  }

  /** Only the cycle that ends the run drains the pipeline of the halt. */
  lemma DrainsByHalting(w: World, m: Machine)
    requires GoodProgram(w.program) && RecordsInv(w, m) && SignalsInv(w, m) && ExceptionInv(m) && HaltInv(m)
    requires !Drained(m)
    ensures Drained(Cycle(w, m)) <==> Halts(w, m)
  {
    hide FullCycle, Hazard, NoteAll, UsesMemory, UsesRs, UsesRt, IsBranch, DataAddress, NextIDelay, NextDDelay,
      Cycle, Move;
    EarlyExitSkipsNothing(w, m);
    CycleFields(w, m);
    MoveFields(w, m);
    NopIsGood();
    ExecutedIsGood(w, m, m.pipe.ifi);
    ExecutedIsGood(w, m, m.pipe.id);
    ExecutedIsGood(w, m, m.pipe.ex);
    ExecutedIsGood(w, m, m.pipe.mem);
    if m.pipe.id == NOP || m.pipe.id.isHalt {
      NoHazardFor(w, m, m.pipe);
    }
  }

  lemma {:induction false} NotDrainedBefore(w: World, k: nat)
    requires GoodProgram(w.program)
    requires forall j: nat :: j < k ==> !Halts(w, RunFor(w, j).m)
    ensures !Drained(RunFor(w, k).m)
  {
    hide Cycle, Halts, Drained, GoodProgram, Inv, RecordsInv, SignalsInv, ExceptionInv, HaltInv, Observe;
    if k == 0 {
      StartNotDrained();
    } else {
      NotDrainedBefore(w, k - 1);
      AlwaysTracked(w, k - 1);
      DrainsByHalting(w, RunFor(w, k - 1).m);
    }
  }

  lemma AlwaysTracked(w: World, k: nat)
    requires GoodProgram(w.program)
    ensures var m := RunFor(w, k).m; RecordsInv(w, m) && SignalsInv(w, m) && ExceptionInv(m) && HaltInv(m)
  {
    hide RunFor, GoodProgram, RecordsInv, SignalsInv, ExceptionInv, HaltInv;
    AlwaysInv(w, k);
  }

  lemma StartNotDrained()
    ensures !Drained(Start())
  {
  }

  lemma {:induction false} NoCycleAfterHalt(w: World, k: nat)
    requires GoodProgram(w.program)
    requires forall j: nat :: j < k ==> !Halts(w, RunFor(w, j).m)
    ensures RunFor(w, k).log.afterHalt == 0
  {
    hide Cycle, Halts, Drained, GoodProgram, Observe;
    if k > 0 {
      NoCycleAfterHalt(w, k - 1);
      NotDrainedBefore(w, k - 1);
      ObservedAfterHalt(RunFor(w, k - 1).m, RunFor(w, k).m, RunFor(w, k - 1).log);
    }
  }

  lemma ObservedAfterHalt(m: Machine, n: Machine, l: Log)
    ensures Observe(m, n, l).afterHalt == l.afterHalt + Bit(Drained(m))
  {
    hide Detected, Patience, Drained;
  }

  lemma {:induction false} CountIsTime(w: World, k: nat)
    ensures RunFor(w, k).m.cycleCount == k
  {
    hide Cycle, Observe;
    if k > 0 {
      CountIsTime(w, k - 1);
      OneCycleCounted(w, RunFor(w, k - 1).m);
    }
  }

  lemma OneCycleCounted(w: World, m: Machine)
    ensures Cycle(w, m).cycleCount == m.cycleCount + 1
  {
    hide FullCycle, Hazard, NoteAll, UsesMemory, Move, Settle, Halts;
    MoveFields(w, m);
    SettleFields(w, Move(w, m.(shown := m.shown.(cycle := m.cycleCount))));
  }

  /** What the pipeline looks like when the run has ended. */
  lemma EndState(w: World, k: nat)
    requires GoodProgram(w.program) && EndsAt(w, k)
    ensures var m, l := RunFor(w, k + 1).m, RunFor(w, k + 1).log;
      && Drained(m) && m.handlingHalt && l.afterHalt == 0
      && Flight(m.pipe) == [] && !ExceptionInFlight(m.pipe) && Pending(m) == 0
      && RemainingI(m) == RemainingD(m) == 0
  {
    hide RunFor, Cycle, Halts, GoodProgram, Kept, Addresses, Extra, TotalPatience, Pcs, CountMisses;
    AlwaysInv(w, k);
    AlwaysInv(w, k + 1);
    NotDrainedBefore(w, k);
    NoCycleAfterHalt(w, k);
    StepOf(w, k);
    DrainsByHalting(w, RunFor(w, k).m);
    NopIsGood();
  }

  lemma FirstStates(w: World)
    ensures RunFor(w, 0) == Run(Start(), EMPTY_LOG)
  {
  }

  lemma StepOf(w: World, k: nat)
    ensures RunFor(w, k + 1).m == Cycle(w, RunFor(w, k).m)
    ensures RunFor(w, k + 1).log == Observe(RunFor(w, k).m, RunFor(w, k + 1).m, RunFor(w, k).log)
  {
    hide Cycle, Observe;
  }

  // ----- the dump

  lemma MoveKeepsClock(w: World, m: Machine)
    ensures Move(w, m).shown.cycle == m.shown.cycle
  {
  }

  lemma ClockIsShown(w: World, m: Machine)
    ensures Cycle(w, m).shown.cycle == m.cycleCount
  {
    hide Move, Settle, Halts;
    var c := m.(shown := m.shown.(cycle := m.cycleCount));
    MoveKeepsClock(w, c);
    SettleFields(w, Move(w, c));
  }

  /** In every state the words to dump are those of the instructions in the latches, zero
      for a bubble, and the cycle to dump is the number of the last cycle, from zero. */
  lemma DumpShowsTheLatches(w: World, k: nat)
    requires GoodProgram(w.program)
    ensures var m := RunFor(w, k).m;
      var p := m.pipe;
      m.shown == PipeState(if k == 0 then 0 else k - 1, p.ifi.instruction, p.id.instruction, p.ex.instruction,
                           p.mem.instruction, p.wb.instruction)
  {
    hide RunFor, GoodProgram, RecordsInv, SignalsInv, ExceptionInv, HaltInv, CountInv, PatienceInv, TallyInv,
      HazardSafe, FirstHaltInv, OrderInv, AccessInv, Cycle, Observe;
    AlwaysInv(w, k);
    FirstStates(w);
    if k > 0 {
      StepOf(w, k - 1);
      CountIsTime(w, k - 1);
      ClockIsShown(w, RunFor(w, k - 1).m);
    }
  }

  // ----- conservation

  /** Everything a finished run reports, in terms of the program alone: n is the index of
      the halt.  The cycles are the instructions, four to drain, one for each invalid and
      two for each overflowing instruction, and the stalls; and the stalls at MEM are the
      data misses times their latency. */
  ghost predicate Finished(w: World, n: nat, m: Machine, l: Log) {
    var p := w.program;
    && m.fetched == n + 1
    && l.retired == Kept(p, n + 1)
    && m.iAccesses == Pcs(p, n + 1)
    && m.dAccesses == Addresses(Trace(p, n + 1))
    && m.cycleCount == (n + 1) + 4 + Invalids(p, n + 1) + 2 * Overflows(p, n + 1)
                       + l.ifStalls + l.idStalls + l.memStalls
    && l.memStalls == CountMisses(w.dHit, m.dAccesses) * w.dLatency
    && l.ifStalls + l.ifHidden == CountMisses(w.iHit, m.iAccesses) * w.iLatency
    && l.idStalls <= TotalPatience(p, n + 1)
    && m.loadStalls == |l.pairs|
  }

  function Invalids(p: nat -> Info, n: nat): nat {
    if n == 0 then 0 else Invalids(p, n - 1) + Bit(!p(n - 1).isValid)
  }

  function Overflows(p: nat -> Info, n: nat): nat {
    if n == 0 then 0 else Overflows(p, n - 1) + Bit(p(n - 1).isOverflow)
  }

  /** Before a halt only exceptions cost extra cycles. */
  lemma {:induction false} ExtraBeforeHalt(p: nat -> Info, n: nat)
    requires GoodProgram(p) && forall i: nat :: i < n ==> !p(i).isHalt
    ensures Extra(p, n) == Invalids(p, n) + 2 * Overflows(p, n)
  {
    hide UsesMemory, UsesRs, UsesRt, IsBranch;
    if n > 0 {
      ExtraBeforeHalt(p, n - 1);
      assert GoodRecord(p(n - 1));
    }
  }

  lemma ExtraOfRun(p: nat -> Info, n: nat)
    requires GoodProgram(p) && HaltsFirst(p, n)
    ensures Extra(p, n + 1) == 4 + Invalids(p, n + 1) + 2 * Overflows(p, n + 1)
  {
    hide UsesMemory, UsesRs, UsesRt, IsBranch;
    ExtraBeforeHalt(p, n);
    assert GoodRecord(p(n));
  }

  lemma {:induction false} KeptAddresses(p: nat -> Info, n: nat)
    requires GoodProgram(p)
    ensures Addresses(Kept(p, n)) == Addresses(Trace(p, n))
  {
    hide GoodRecord, UsesMemory, DataAddress, Excepting;
    if n > 0 {
      KeptAddresses(p, n - 1);
      var x := p(n - 1);
      assert GoodRecord(x);
      ExceptingUsesNone(x);
      AppendedAddresses(Trace(p, n - 1), Kept(p, n - 1), x);
    }
  }

  lemma AppendedAddresses(s: seq<Info>, kept: seq<Info>, x: Info)
    requires Addresses(kept) == Addresses(s) && (Excepting(x) ==> !UsesMemory(x))
    ensures Addresses(kept + (if Excepting(x) then [] else [x])) == Addresses(s + [x])
  {
    hide UsesMemory, DataAddress, Excepting, Addresses;
    AddressesAppend(s, x);
    AddressesAppend(kept, x);
    assert kept + [] == kept && Addresses(s) + [] == Addresses(s);
  }

  lemma ExceptingUsesNone(x: Info)
    requires GoodRecord(x)
    ensures Excepting(x) ==> !UsesMemory(x)
  {
  }

  /** The pipeline returns HALT only when the program halted, and then reports what the
      program determines. */
  lemma HaltIsSound(w: World, k: nat)
    requires GoodProgram(w.program) && EndsAt(w, k)
    ensures var m, l := RunFor(w, k + 1).m, RunFor(w, k + 1).log;
      m.fetched > 0 && HaltsFirst(w.program, m.fetched - 1) && Finished(w, m.fetched - 1, m, l)
  {
    hide RunFor, Halts, GoodProgram, Kept, Addresses, Extra, TotalPatience, Pcs, CountMisses, Pending, Drained,
      Invalids, Overflows, Trace, RecordsInv, SignalsInv, ExceptionInv, HaltInv, ShownInv, HazardSafe, EndsAt,
      RemainingI, RemainingD;
    EndState(w, k);
    AlwaysInv(w, k + 1);
    var m, l := RunFor(w, k + 1).m, RunFor(w, k + 1).log;
    KeptAddresses(w.program, m.fetched);
    ExtraOfRun(w.program, m.fetched - 1);
    assert l.retired + [] == l.retired;
    assert Kept(w.program, m.fetched) + [] == Kept(w.program, m.fetched);
    DrainedMem(m);
  }

  lemma DrainedMem(m: Machine)
    requires Drained(m) && HaltInv(m)
    ensures m.pipe.mem == NOP
  {
  }

  // ----- termination

  /** A bound on the cycles of a run, linear in what the program executes. */
  function CycleBound(w: World, n: nat): nat {
    (n + 1) + Extra(w.program, n + 1) + TotalPatience(w.program, n + 1) + (n + 1) * (w.iLatency + w.dLatency)
  }

  lemma {:induction false} SumsGrow(p: nat -> Info, a: nat, b: nat)
    requires a <= b
    ensures Extra(p, a) <= Extra(p, b) && TotalPatience(p, a) <= TotalPatience(p, b)
    decreases b
  {
    hide ExtraOf, Patience;
    if a < b {
      SumsGrow(p, a, b - 1);
    }
  }

  lemma {:induction false} KeptLength(p: nat -> Info, n: nat)
    ensures |Kept(p, n)| <= n && |Pcs(p, n)| == n
    ensures n > 0 && Excepting(p(n - 1)) ==> |Kept(p, n)| < n
  {
    if n > 0 {
      KeptLength(p, n - 1);
    }
  }

  lemma {:induction false} AddressesLength(s: seq<Info>)
    ensures |Addresses(s)| <= |s|
  {
    if |s| > 0 {
      AddressesLength(s[..|s| - 1]);
    }
  }

  lemma AccessesBounded(w: World, m: Machine, l: Log)
    requires OrderInv(w, m, l) && AccessInv(w, m, l)
    ensures |m.iAccesses| == m.fetched && |m.dAccesses| <= m.fetched
  {
    hide Kept, Addresses, Pcs, ExceptionInFlight;
    KeptLength(w.program, m.fetched);
    AddressesLength(l.retired + Opt(m.pipe.mem));
    assert |l.retired + Opt(m.pipe.mem)| <= |l.retired + Flight(m.pipe)|;
  }

  lemma StallsBounded(w: World, m: Machine, l: Log, n: nat)
    requires OrderInv(w, m, l) && AccessInv(w, m, l) && CountInv(w, m, l) && m.fetched <= n
    ensures l.ifStalls + l.memStalls <= n * (w.iLatency + w.dLatency)
  {
    hide Kept, Addresses, Pcs, ExceptionInFlight, CountMisses, OrderInv, AccessInv, Extra, Pending;
    AccessesBounded(w, m, l);
    MulMonotone(CountMisses(w.iHit, m.iAccesses), n, w.iLatency);
    MulMonotone(CountMisses(w.dHit, m.dAccesses), n, w.dLatency);
    Distribute(n, w.iLatency, w.dLatency);
  }

  lemma Distribute(n: nat, a: nat, b: nat)
    ensures n * (a + b) == n * a + n * b
  {
  }

  lemma FetchedBounded(w: World, m: Machine, n: nat)
    requires FirstHaltInv(w, m) && HaltsFirst(w.program, n)
    ensures m.fetched <= n + 1
  {
  }

  /** A run that has not ended has not used up its bound. */
  lemma NotEndedBound(w: World, k: nat, n: nat)
    requires GoodProgram(w.program) && HaltsFirst(w.program, n)
    requires forall j: nat :: j < k ==> !Halts(w, RunFor(w, j).m)
    ensures k <= CycleBound(w, n)
  {
    hide RunFor, GoodProgram, HaltsFirst, Halts, RecordsInv, SignalsInv, ExceptionInv, HaltInv, ShownInv, HazardSafe,
      TallyInv, OrderInv, AccessInv, FirstHaltInv, Extra, TotalPatience, Pending, CountMisses;
    AlwaysInv(w, k);
    NoCycleAfterHalt(w, k);
    CountIsTime(w, k);
    var m, l := RunFor(w, k).m, RunFor(w, k).log;
    FetchedBounded(w, m, n);
    StallsBounded(w, m, l, n + 1);
    SumsGrow(w.program, m.fetched, n + 1);
  }

  lemma {:induction false} LeastHalt(w: World, k: nat)
    requires Halts(w, RunFor(w, k).m)
    ensures exists j :: 0 <= j <= k && EndsAt(w, j)
  {
    hide RunFor, Halts;
    if j: nat :| j < k && Halts(w, RunFor(w, j).m) {
      LeastHalt(w, j);
    } else {
      assert EndsAt(w, k);
    }
  }

  lemma OneFirstHalt(p: nat -> Info, a: nat, b: nat)
    requires HaltsFirst(p, a) && HaltsFirst(p, b)
    ensures a == b
  {
  }

  /** For every program that halts and every pair of caches, the pipeline returns HALT
      within a number of cycles linear in the instructions executed, and the run reports
      what the program alone determines. */
  lemma RunsToHalt(w: World, n: nat)
    requires GoodProgram(w.program) && HaltsFirst(w.program, n)
    ensures exists k ::
              && 0 <= k <= CycleBound(w, n) && EndsAt(w, k)
              && Finished(w, n, RunFor(w, k + 1).m, RunFor(w, k + 1).log)
  {
    hide RunFor, Halts, GoodProgram, HaltsFirst, CycleBound, EndsAt, Finished;
    var limit := CycleBound(w, n);
    if forall j: nat :: j < limit + 1 ==> !Halts(w, RunFor(w, j).m) {
      NotEndedBound(w, limit + 1, n);
    } else {
      var j: nat :| j < limit + 1 && Halts(w, RunFor(w, j).m);
      LeastHalt(w, j);
      var k: nat :| 0 <= k <= j && EndsAt(w, k);
      HaltIsSound(w, k);
      OneFirstHalt(w.program, n, RunFor(w, k + 1).m.fetched - 1);
    }
  }

  /** The pipeline halts exactly when the program does. */
  lemma HaltsExactlyWithProgram(w: World)
    requires GoodProgram(w.program)
    ensures (exists k: nat :: EndsAt(w, k)) <==> (exists n: nat :: HaltsFirst(w.program, n))
  {
    hide RunFor, GoodProgram, HaltsFirst, EndsAt, Finished, CycleBound;
    if k: nat :| EndsAt(w, k) {
      HaltIsSound(w, k);
    }
    if n: nat :| HaltsFirst(w.program, n) {
      RunsToHalt(w, n);
    }
  }

  /** Caches and latencies never change what is executed, retired, or accessed. */
  lemma TimingChangesNothing(u: World, v: World, j: nat, k: nat)
    requires GoodProgram(u.program) && u.program == v.program && EndsAt(u, j) && EndsAt(v, k)
    ensures var m, n := RunFor(u, j + 1).m, RunFor(v, k + 1).m;
      && m.fetched == n.fetched
      && RunFor(u, j + 1).log.retired == RunFor(v, k + 1).log.retired
      && m.iAccesses == n.iAccesses && m.dAccesses == n.dAccesses
  {
    hide RunFor, GoodProgram, HaltsFirst, EndsAt, Kept, Addresses, Trace, Pcs, Extra, TotalPatience, CountMisses;
    HaltIsSound(u, j);
    HaltIsSound(v, k);
    OneFirstHalt(u.program, RunFor(u, j + 1).m.fetched - 1, RunFor(v, k + 1).m.fetched - 1);
  }

  // ----- draining

  /** Cycles from the i-th to the j-th state that move the pipeline. */
  ghost function Moves(w: World, i: nat, j: nat): nat {
    if j <= i then 0 else Moves(w, i, j - 1) + Bit(!AnyStall(RunFor(w, j - 1).m.flags))
  }

  lemma {:induction false} PendingAlong(w: World, i: nat, j: nat)
    requires GoodProgram(w.program) && i <= j && RunFor(w, i).m.handlingHalt
    requires forall x: nat :: x < j ==> !Halts(w, RunFor(w, x).m)
    ensures RunFor(w, j).m.handlingHalt
    ensures Pending(RunFor(w, j).m) + Moves(w, i, j) == Pending(RunFor(w, i).m)
    decreases j
  {
    hide RunFor, GoodProgram, Cycle, FullCycle, Pending, Drained, Halts, RecordsInv, SignalsInv, ExceptionInv, HaltInv;
    if i < j {
      PendingAlong(w, i, j - 1);
      PendingStep(w, j - 1);
    }
  }

  lemma PendingStep(w: World, k: nat)
    requires GoodProgram(w.program) && RunFor(w, k).m.handlingHalt
    requires forall x: nat :: x < k ==> !Halts(w, RunFor(w, x).m)
    ensures var m, n := RunFor(w, k).m, RunFor(w, k + 1).m;
      n.handlingHalt && Pending(n) + Bit(!AnyStall(m.flags)) == Pending(m)
  {
    hide RunFor, GoodProgram, Cycle, FullCycle, Pending, Drained, Halts, RecordsInv, SignalsInv, ExceptionInv, HaltInv,
      NextPipe, Hazard, NoteAll;
    var m := RunFor(w, k).m;
    AlwaysTracked(w, k);
    StepOf(w, k);
    EarlyExitSkipsNothing(w, m);
    NotDrainedBefore(w, k);
    PendingCountsDown(w, m);
    CycleFields(w, m);
  }

  /** From IF, the halt reaches WB by moving four times; stalls in between only delay it. */
  lemma HaltMovesFourTimes(w: World, i: nat, k: nat)
    requires GoodProgram(w.program) && EndsAt(w, k) && i <= k && RunFor(w, i).m.pipe.ifi.isHalt
    ensures Moves(w, i, k + 1) == 4
  {
    hide RunFor, GoodProgram, Halts, RecordsInv, SignalsInv, ExceptionInv;
    AlwaysTracked(w, i);
    PendingAlong(w, i, k);
    PendingStep(w, k);
    EndState(w, k);
  }
}
