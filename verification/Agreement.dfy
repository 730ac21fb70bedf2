/** The two simulators side by side. */
module Agreement {
  import opened Memory
  import opened Emulation
  import opened EmulatedProgram
  import Caching
  import Dependence
  import Fun = FunctionalSimulator
  import Cyc = CycleSimulator
  import Theorems = PipelineTheorems

  method RunFunctional(m: MemoryStore, ghost h: nat) returns (emulator: Fun.Emulator)
    requires m.Valid() && Fun.FirstHalt(Boot(m.State()), h)
    modifies m.memArr
    ensures emulator.Valid() && emulator.memory == m && fresh(emulator) && fresh(emulator.regs)
    ensures emulator.State() == After(Boot(old(m.State())), h + 1)
  {
    hide Boot, After, Fun.FirstHalt;
    emulator := new Fun.Emulator(m);
    var status := Fun.RunTillHalt(emulator, h);
  }

  method RunPipelined(m: MemoryStore, i: Caching.CacheConfig, d: Caching.CacheConfig, ghost h: nat)
    returns (simulator: Cyc.Simulator)
    requires m.Valid() && Caching.WellFormed(i) && Caching.WellFormed(d)
    requires Fun.FirstHalt(Boot(m.State()), h)
    modifies m.memArr
    ensures simulator.Valid() && simulator.Reports(h)
    ensures simulator.emulator.memory == m
    ensures simulator.emulator.State() == After(Boot(old(m.State())), h + 1)
  {
    hide Caching.WellFormed, Boot, After, Fun.FirstHalt, Theorems.HaltsFirst, Theorems.EndsAt, ProgramOf,
      Cyc.Simulator.Reports, Cyc.Simulator.Running, Cyc.Simulator.Valid, Cyc.Simulator.Whole;
    SameHalt(m.State(), h);
    simulator := new Cyc.Simulator(i, d, m);
    simulator.ValidWorld();
    var status := simulator.RunTillHalt(h);
  }

  lemma SameHalt(image: MemState, h: nat)
    requires Fun.FirstHalt(Boot(image), h)
    ensures Theorems.HaltsFirst(ProgramOf(image), h)
  {
    hide Boot, Record;
  }

  /** The registers that none of the first n instructions of an image can change are zero. */
  ghost predicate UntouchedZero(image: MemState, n: nat, regs: Regs) {
    forall r: RegIndex ::
      (forall i: nat :: i < n ==> !Dependence.CanChange(Record(Boot(image), i), r)) ==> regs[r] == 0
  }

  lemma UntouchedAtTheEnd(image: MemState, n: nat)
    ensures UntouchedZero(image, n, After(Boot(image), n).regs)
  {
    hide Boot, Record, After, Dependence.CanChange;
    forall r: RegIndex | forall i: nat :: i < n ==> !Dependence.CanChange(Record(Boot(image), i), r)
      ensures After(Boot(image), n).regs[r] == 0
    {
      Dependence.UntouchedIsZero(image, n, r);
    }
  }

  /** The functional simulator and the cycle simulator, on equal memory images and with any
      caches, both return HALT with the same registers, memory, PC and instruction count. */
  method RunBoth(m: MemoryStore, n: MemoryStore, i: Caching.CacheConfig, d: Caching.CacheConfig, ghost h: nat)
    returns (functional: Fun.Emulator, cycle: Cyc.Simulator)
    requires m.Valid() && n.Valid() && m.memArr != n.memArr && m.State() == n.State()
    requires Caching.WellFormed(i) && Caching.WellFormed(d)
    requires Fun.FirstHalt(Boot(m.State()), h)
    modifies m.memArr, n.memArr
    ensures functional.Valid() && cycle.Valid()
    ensures functional.memory == m && cycle.emulator.memory == n
    ensures functional.State() == cycle.emulator.State() == After(Boot(old(m.State())), h + 1)
    ensures cycle.Reports(h) && UntouchedZero(old(m.State()), h + 1, functional.State().regs)
  {
    hide Caching.WellFormed, Boot, After, Fun.FirstHalt, Cyc.Simulator.Valid, Cyc.Simulator.Reports, UntouchedZero;
    UntouchedAtTheEnd(m.State(), h + 1);
    functional := RunFunctional(m, h);
    cycle := RunPipelined(n, i, d, h);
  }
}
