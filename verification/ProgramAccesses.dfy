/** What the caches are asked in a run, computed from the states of the emulator alone. */
module ProgramAccesses {
  import opened Bits
  import opened Memory
  import opened Emulation
  import opened EmulatorTheorems
  import opened EmulatedProgram
  import M = InstructionMeaning
  import P = Pipeline
  import H = PipelineHistory
  import V = PipelineInvariants
  import T = PipelineTheorems

  /** The program counters of the first n instructions. */
  function FetchAddresses(e: EmuState, n: nat): seq<Word> {
    seq(n, i requires 0 <= i => After(e, i).pc)
  }

  /** The effective addresses of the loads and stores among the first n instructions. */
  function EffectiveAddresses(e: EmuState, n: nat): seq<Word> {
    if n == 0 then [] else EffectiveAddresses(e, n - 1) + M.EffectiveAddress(After(e, n - 1))
  }

  lemma {:induction false} FetchesAreCounters(image: MemState, n: nat)
    ensures H.Pcs(ProgramOf(image), n) == FetchAddresses(Boot(image), n)
  {
    hide Step, Boot;
    if n > 0 {
      FetchesAreCounters(image, n - 1);
      NextPCIsNextPc(After(Boot(image), n - 1));
    }
  }

  lemma {:induction false} TraceAddresses(image: MemState, n: nat)
    ensures H.Addresses(H.Trace(ProgramOf(image), n)) == EffectiveAddresses(Boot(image), n)
  {
    hide Step, Boot, M.EffectiveAddress, P.UsesMemory, P.DataAddress;
    if n > 0 {
      TraceAddresses(image, n - 1);
      M.RecordAsks(After(Boot(image), n - 1));
      V.AddressesAppend(H.Trace(ProgramOf(image), n - 1), ProgramOf(image)(n - 1));
    }
  }

  // ----- the state in between

  /** The number of the oldest instruction that has not reached MEM. */
  function NextForMem(m: P.Machine): nat {
    var p := m.pipe;
    if p.ex != NOP then p.ex.instructionID
    else if p.id != NOP then p.id.instructionID
    else if p.ifi != NOP then p.ifi.instructionID
    else m.fetched
  }

  /** The kept part of a trace, cut before one of its instructions. */
  lemma {:induction false} KeptUpTo(p: nat -> Info, n: nat, u: seq<Info>, x: Info, v: seq<Info>)
    requires H.GoodProgram(p) && H.Kept(p, n) == u + [x] + v
    ensures x.instructionID < n && u == H.Kept(p, x.instructionID)
  {
    hide H.GoodRecord, H.Excepting;
    if n > 0 {
      var y := p(n - 1);
      assert y.instructionID == n - 1 by {
        assert H.GoodRecord(y);
      }
      if H.Excepting(y) {
        assert H.Kept(p, n - 1) == u + [x] + v;
        KeptUpTo(p, n - 1, u, x, v);
      } else if v == [] {
        assert (u + [x] + v)[|u|] == x && (u + [x] + v)[..|u|] == u;
        assert H.Kept(p, n)[..|H.Kept(p, n)| - 1] == H.Kept(p, n - 1);
      } else {
        var v' := v[..|v| - 1];
        assert (u + [x] + v)[..|u| + 1 + |v'|] == u + [x] + v';
        assert H.Kept(p, n)[..|H.Kept(p, n)| - 1] == H.Kept(p, n - 1);
        KeptUpTo(p, n - 1, u, x, v');
      }
    }
  }

  /** The same with a last instruction that excepts and is not squashed yet. */
  lemma LiveUpTo(p: nat -> Info, n: nat, tail: seq<Info>, u: seq<Info>, x: Info, v: seq<Info>)
    requires H.GoodProgram(p)
    requires tail == [] || (n > 0 && H.Excepting(p(n - 1)) && tail == [p(n - 1)])
    requires H.Kept(p, n) + tail == u + [x] + v
    ensures u == H.Kept(p, x.instructionID)
  {
    hide H.GoodProgram, H.Excepting;
    var s := u + [x] + v;
    if tail == [] {
      assert H.Kept(p, n) == s;
      KeptUpTo(p, n, u, x, v);
    } else {
      T.NumberOf(p, n - 1);
      assert s[|s| - 1] == p(n - 1) && s[..|s| - 1] == H.Kept(p, n) == H.Kept(p, n - 1);
      if v == [] {
        assert s[|u|] == x && s[..|u|] == u;
      } else {
        assert s[..|s| - 1] == u + [x] + v[..|v| - 1];
        KeptUpTo(p, n - 1, u, x, v[..|v| - 1]);
      }
    }
  }

  /** What retired and what is in MEM is the kept part of the trace before the oldest
      instruction that has not reached MEM. */
  lemma ReachedMem(w: P.World, m: P.Machine, l: H.Log)
    requires H.GoodProgram(w.program) && H.OrderInv(w, m, l)
    ensures l.retired + H.Opt(m.pipe.mem) == H.Kept(w.program, NextForMem(m))
  {
    hide H.GoodProgram, H.Excepting, H.Kept, H.ExceptionInFlight;
    var p, n, u := m.pipe, m.fetched, l.retired + H.Opt(m.pipe.mem);
    var tail := if H.ExceptionInFlight(p) then [w.program(n - 1)] else [];
    var rest := H.Opt(p.ex) + H.Opt(p.id) + H.Opt(p.ifi);
    assert u + rest == H.Kept(w.program, n) + tail by {
      FlightParts(l.retired, p);
    }
    if rest == [] {
      BubblesAlone(p);
      assert u + [] == u && H.Kept(w.program, n) + [] == H.Kept(w.program, n);
    } else {
      assert u + rest == u + [rest[0]] + rest[1..];
      LiveUpTo(w.program, n, tail, u, rest[0], rest[1..]);
    }
  }

  lemma FlightParts(r: seq<Info>, p: P.Latches)
    ensures (r + H.Opt(p.mem)) + (H.Opt(p.ex) + H.Opt(p.id) + H.Opt(p.ifi)) == r + H.Flight(p)
  {
  }

  lemma BubblesAlone(p: P.Latches)
    requires H.Opt(p.ex) + H.Opt(p.id) + H.Opt(p.ifi) == []
    ensures p.ex == p.id == p.ifi == NOP && !H.ExceptionInFlight(p)
  {
  }

  /** In every state of every run of a memory image: the instruction cache was asked for the
      program counters of the executed instructions, and the data cache for the effective
      addresses of all instructions before the oldest one that has not reached MEM. */
  lemma AccessesFollowTheStates(w: P.World, image: MemState, k: nat)
    requires w.program == ProgramOf(image)
    ensures var m := H.RunFor(w, k).m;
      && m.iAccesses == FetchAddresses(Boot(image), m.fetched)
      && m.dAccesses == EffectiveAddresses(Boot(image), NextForMem(m))
  {
    hide H.RunFor, H.GoodProgram, ProgramOf, H.Pcs, H.Addresses, H.Kept, H.RecordsInv, H.SignalsInv, H.ExceptionInv,
      H.HaltInv, H.CountInv, H.PatienceInv, H.TallyInv, H.ShownInv, H.HazardSafe, H.FirstHaltInv, H.OrderInv,
      NextForMem, FetchAddresses, Boot;
    EveryImageIsAProgram(image);
    V.AlwaysInv(w, k);
    var m, l := H.RunFor(w, k).m, H.RunFor(w, k).log;
    FetchesAreCounters(image, m.fetched);
    ReachedMem(w, m, l);
    T.KeptAddresses(w.program, NextForMem(m));
    TraceAddresses(image, NextForMem(m));
  }

  /** At the halt, both caches were asked for all that the program executed. */
  lemma AccessesAtTheEnd(image: MemState, n: nat)
    ensures H.Pcs(ProgramOf(image), n + 1) == FetchAddresses(Boot(image), n + 1)
    ensures H.Addresses(H.Trace(ProgramOf(image), n + 1)) == EffectiveAddresses(Boot(image), n + 1)
  {
    hide Boot, ProgramOf, H.Pcs, H.Addresses, H.Trace, FetchAddresses, EffectiveAddresses;
    FetchesAreCounters(image, n + 1);
    TraceAddresses(image, n + 1);
  }
}
