/** The emulator object and the functional driver that runs it. */
module FunctionalSimulator {
  import opened Bits
  import opened Memory
  import opened Emulation

  datatype Status = SUCCESS | ERROR | HALT

  class Emulator {
    const regs: array<Word>
    const memory: MemoryStore
    var PC: Word
    var encounteredBranch: bool
    var savedBranch: Word
    var din: nat

    ghost predicate Valid()
      reads this, regs
    {
      regs.Length == 32 && memory.Valid() && regs as object != memory.memArr as object
    }

    ghost function State(): EmuState
      requires Valid()
      reads this, regs, memory.memArr
    {
      EmuState(PC, encounteredBranch, savedBranch, din, regs[..], memory.State())
    }

    constructor (memory: MemoryStore)
      requires memory.Valid()
      ensures Valid() && fresh(regs) && this.memory == memory
      ensures State() == Boot(memory.State())
      ensures PC == 0 && !encounteredBranch && savedBranch == 0 && din == 0
      ensures regs.Length == 32 && forall i :: 0 <= i < 32 ==> regs[i] == 0
    {
      this.memory := memory;
      regs := new Word[32](_ => 0);
      PC, encounteredBranch, savedBranch, din := 0, false, 0, 0;
      new;
      assert regs[..] == Boot(memory.State()).regs;
    }

    /** Executes one instruction and returns the record of it. */
    method ExecuteInstruction() returns (info: Info)
      requires Valid()
      modifies this, regs, memory.memArr
      ensures Valid()
      ensures (info, State()) == Step(old(State()))
    {
      hide Fetch, Decode, Execute, ExecuteRType;
      info := FetchInstruction();
      FetchIsUndecoded(old(State()));
      if info.isHalt {
        return;
      }
      info := Decode(info, PC);
      DecodeKeepsFlags(Fetch(old(State())).0, PC);
      ExecuteSplits(info, PC, regs[..], memory.State());
      if info.opcode == OP_ZERO {
        info := ExecuteRegister(info);
      } else {
        info := ExecuteOther(info);
      }
    }

    /** The part of ExecuteInstruction before decoding. */
    method FetchInstruction() returns (info: Info)
      requires Valid()
      modifies this, regs, memory.memArr
      ensures Valid()
      ensures (info, State()) == Fetch(old(State()))
    {
      var instruction: Word;
      var status: int;
      status, instruction := memory.GetMemValue(PC, 0, WORD_SIZE);
      info := NOP.(pc := PC, instruction := instruction);
      info := info.(nextPC := if encounteredBranch then savedBranch else Plus(PC, 4));
      if !encounteredBranch {
        PC := Plus(PC, 4);
      } else {
        PC := savedBranch;
        encounteredBranch := false;
      }
      regs[0] := 0;
      info := info.(instructionID := din);
      din := din + 1;
      info := info.(isHalt := instruction == HALT_WORD);
      assert State().regs == Fetch(old(State())).1.regs;
    }

    /** The state after an executed instruction, given its effect. */
    ghost function Done(e: EmuState, r: Effect): EmuState {
      e.(pc := if Traps(r.info) then EXCEPTION_ADDRESS else e.pc,
         encounteredBranch := r.branch.Some?,
         savedBranch := if r.branch.Some? then r.branch.value else e.savedBranch,
         regs := r.regs,
         mem := r.mem)
    }

    /** The R-type half of the instruction switch. */
    method ExecuteRegister(d: Info) returns (info: Info)
      requires Valid() && !encounteredBranch && !Traps(d)
      modifies this, regs
      ensures Valid()
      ensures var r := ExecuteRType(d, old(regs[..]), old(memory.State()));
        info == r.info && State() == Done(old(State()), r)
    {
      hide And, OrWord, NotWord, Pow2, Shr, Wrap, Plus, Minus, Signed, AddFlag, SubFlag;
      info := d;
      if d.funct == FUN_ADD {
        info := ExecuteAdd(d);
      } else if d.funct == FUN_ADDU {
        regs[d.rd] := Plus(regs[d.rs], regs[d.rt]);
      } else if d.funct == FUN_AND {
        regs[d.rd] := And(regs[d.rs], regs[d.rt]);
      } else if d.funct == FUN_JR {
        encounteredBranch, savedBranch := true, regs[d.rs];
      } else if d.funct == FUN_NOR {
        regs[d.rd] := NotWord(OrWord(regs[d.rs], regs[d.rt]));
      } else if d.funct == FUN_OR {
        regs[d.rd] := OrWord(regs[d.rs], regs[d.rt]);
      } else if d.funct == FUN_SLT {
        regs[d.rd] := if Signed(regs[d.rs]) < Signed(regs[d.rt]) then 1 else 0;
      } else if d.funct == FUN_SLTU {
        regs[d.rd] := if regs[d.rs] < regs[d.rt] then 1 else 0;
      } else if d.funct == FUN_SLL {
        regs[d.rd] := Wrap(regs[d.rt] * Pow2(d.shamt));
      } else if d.funct == FUN_SRL {
        regs[d.rd] := Shr(regs[d.rt], d.shamt);
      } else if d.funct == FUN_SUB {
        info := ExecuteSub(d);
      } else if d.funct == FUN_SUBU {
        regs[d.rd] := Minus(regs[d.rs], regs[d.rt]);
      } else {
        info := info.(isValid := false, nextPC := EXCEPTION_ADDRESS);
        PC := EXCEPTION_ADDRESS;
      }
      assert State().regs == ExecuteRType(d, old(regs[..]), old(memory.State())).regs;
    }

    /** The case of ADD. */
    method ExecuteAdd(d: Info) returns (info: Info)
      requires Valid() && !encounteredBranch && !Traps(d) && d.funct == FUN_ADD
      modifies this, regs
      ensures Valid()
      ensures var r := ExecuteRType(d, old(regs[..]), old(memory.State()));
        info == r.info && State() == Done(old(State()), r)
    {
      hide Plus;
      info := d;
      var oldRd := regs[d.rd];
      regs[d.rd] := Plus(regs[d.rs], regs[d.rt]);
      var signRd, signRs, signRt := Negative(regs[d.rd]), Negative(regs[d.rs]), Negative(regs[d.rt]);
      info := info.(isOverflow := (signRs && signRt && !signRd) || (!signRs && !signRt && signRd));
      if info.isOverflow {
        regs[d.rd] := oldRd;
        info := info.(nextPC := EXCEPTION_ADDRESS);
        PC := EXCEPTION_ADDRESS;
      }
      assert State().regs == ExecuteRType(d, old(regs[..]), old(memory.State())).regs;
    }

    /** The case of SUB. */
    method ExecuteSub(d: Info) returns (info: Info)
      requires Valid() && !encounteredBranch && !Traps(d) && d.funct == FUN_SUB
      modifies this, regs
      ensures Valid()
      ensures var r := ExecuteRType(d, old(regs[..]), old(memory.State()));
        info == r.info && State() == Done(old(State()), r)
    {
      hide Minus;
      info := d;
      var oldRd := regs[d.rd];
      regs[d.rd] := Minus(regs[d.rs], regs[d.rt]);
      var signRd, signRs, signRt := Negative(regs[d.rd]), Negative(regs[d.rs]), Negative(regs[d.rt]);
      info := info.(isOverflow := (signRs && !signRt && !signRd) || (!signRs && signRt && signRd));
      if info.isOverflow {
        regs[d.rd] := oldRd;
        info := info.(nextPC := EXCEPTION_ADDRESS);
        PC := EXCEPTION_ADDRESS;
      }
      assert State().regs == ExecuteRType(d, old(regs[..]), old(memory.State())).regs;
    }

    /** The case of ADDI. */
    method ExecuteAddi(d: Info) returns (info: Info)
      requires Valid() && !encounteredBranch && !Traps(d) && d.opcode == OP_ADDI
      modifies this, regs
      ensures Valid()
      ensures var r := Execute(d, old(PC), old(regs[..]), old(memory.State()));
        info == r.info && State() == Done(old(State()), r)
    {
      hide Plus, And, OrWord, Pow2, Wrap, Read, Write, ExtractBits, Signed;
      info := d;
      var oldRt := regs[d.rt];
      regs[d.rt] := Plus(regs[d.rs], d.signExtImm);
      var signRt, signRs, signImm := Negative(regs[d.rt]), Negative(regs[d.rs]), Negative(d.signExtImm);
      info := info.(isOverflow := (signRs && signImm && !signRt) || (!signRs && !signImm && signRt));
      if info.isOverflow {
        regs[d.rt] := oldRt;
        info := info.(nextPC := EXCEPTION_ADDRESS);
        PC := EXCEPTION_ADDRESS;
      }
      assert State().regs == Execute(d, old(PC), old(regs[..]), old(memory.State())).regs;
    }

    /** The cases of branches and jumps. */
    method ExecuteControl(d: Info)
      requires Valid() && !encounteredBranch && !Traps(d) && IsControl(d.opcode)
      modifies this, regs
      ensures Valid()
      ensures var r := Execute(d, old(PC), old(regs[..]), old(memory.State()));
        d == r.info && State() == Done(old(State()), r)
    {
      hide And, OrWord, Pow2, Wrap, Plus, Read, Write, ExtractBits, Signed, AddiFlag, ExecuteRType;
      if d.opcode == OP_BEQ {
        if regs[d.rs] == regs[d.rt] {
          encounteredBranch, savedBranch := true, Plus(PC, d.branchAddr);
        }
      } else if d.opcode == OP_BNE {
        if regs[d.rs] != regs[d.rt] {
          encounteredBranch, savedBranch := true, Plus(PC, d.branchAddr);
        }
      } else if d.opcode == OP_BLEZ {
        if regs[d.rs] == 0 || Negative(regs[d.rs]) {
          encounteredBranch, savedBranch := true, Plus(PC, d.branchAddr);
        }
      } else if d.opcode == OP_BGTZ {
        if !Negative(regs[d.rs]) && regs[d.rs] != 0 {
          encounteredBranch, savedBranch := true, Plus(PC, d.branchAddr);
        }
      } else if d.opcode == OP_J {
        encounteredBranch, savedBranch := true, d.jumpAddr;
      } else if d.opcode == OP_JAL {
        encounteredBranch := true;
        regs[31] := Plus(PC, 4);
        savedBranch := d.jumpAddr;
      }
      assert State().regs == Execute(d, old(PC), old(regs[..]), old(memory.State())).regs;
    }

    /** The rest of the instruction switch. */
    method ExecuteOther(d: Info) returns (info: Info)
      requires Valid() && !encounteredBranch && !Traps(d) && d.opcode != OP_ZERO
      modifies this, regs, memory.memArr
      ensures Valid()
      ensures var r := Execute(d, old(PC), old(regs[..]), old(memory.State()));
        info == r.info && State() == Done(old(State()), r)
    {
      hide And, OrWord, Pow2, Wrap, Plus, Read, Write, ExtractBits, Signed, AddiFlag, ExecuteRType;
      info := d;
      var address := Plus(regs[d.rs], d.signExtImm);
      if d.opcode == OP_ADDI {
        info := ExecuteAddi(d);
      } else if d.opcode == OP_ADDIU {
        regs[d.rt] := Plus(regs[d.rs], d.signExtImm);
      } else if d.opcode == OP_ANDI {
        regs[d.rt] := And(regs[d.rs], d.zeroExtImm);
      } else if IsControl(d.opcode) {
        ExecuteControl(d);
      } else if d.opcode == OP_LBU || d.opcode == OP_LHU || d.opcode == OP_LW {
        info := info.(loadAddress := address);
        LoadInto(d.rt, address,
          if d.opcode == OP_LBU then BYTE_SIZE else if d.opcode == OP_LHU then HALF_SIZE else WORD_SIZE);
      } else if d.opcode == OP_LUI {
        regs[d.rt] := Wrap(d.zeroExtImm * 0x1_0000);
      } else if d.opcode == OP_ORI {
        regs[d.rt] := OrWord(regs[d.rs], d.zeroExtImm);
      } else if d.opcode == OP_SLTI {
        regs[d.rt] := if Signed(regs[d.rs]) < Signed(d.signExtImm) then 1 else 0;
      } else if d.opcode == OP_SLTIU {
        regs[d.rt] := if regs[d.rs] < d.signExtImm then 1 else 0;
      } else if d.opcode == OP_SB || d.opcode == OP_SH || d.opcode == OP_SW {
        info := info.(storeAddress := address);
        StoreFrom(regs[d.rt], address,
          if d.opcode == OP_SB then BYTE_SIZE else if d.opcode == OP_SH then HALF_SIZE else WORD_SIZE);
      } else {
        info := info.(isValid := false, nextPC := EXCEPTION_ADDRESS);
        PC := EXCEPTION_ADDRESS;
      }
      assert State().regs == Execute(d, old(PC), old(regs[..]), old(memory.State())).regs;
    }

    /** A load leaves in the register what could be read, even when the address is bad. */
    method LoadInto(rt: RegIndex, address: Word, size: nat)
      requires Valid() && ValidSize(size)
      modifies regs, memory.memArr
      ensures memory.State() == old(memory.State())
      ensures regs[..] == old(regs[..])[rt := Read(memory.State(), address, size)]
    {
      var status, value := memory.GetMemValue(address, regs[rt], size);
      regs[rt] := value;
    }

    /** A store writes the low bytes that could be written, even when the address is bad. */
    method StoreFrom(value: Word, address: Word, size: nat)
      requires Valid() && ValidSize(size)
      modifies memory.memArr
      ensures memory.State() == Write(old(memory.State()), address, LowBytes(value, size), size)
    {
      var status := memory.SetMemValue(address, LowBytes(value, size), size);
    }
  }

  predicate IsControl(op: nat) {
    op in {OP_BEQ, OP_BNE, OP_BLEZ, OP_BGTZ, OP_J, OP_JAL}
  }

  /** The part of a register that a store of the given size passes on. */
  function LowBytes(value: Word, size: nat): Word {
    FieldWidths(); WordPow2();
    if size == BYTE_SIZE then ExtractBits(value, 7, 0)
    else if size == HALF_SIZE then ExtractBits(value, 15, 0)
    else value
  }

  /** The n-th instruction is the first to halt. */
  ghost predicate FirstHalt(e: EmuState, n: nat) {
    Record(e, n).isHalt && forall i: nat :: i < n ==> !Record(e, i).isHalt
  }

  lemma {:induction false} AfterAppend(e: EmuState, k: nat, n: nat)
    ensures After(After(e, k), n) == After(e, k + n)
  {
    hide Step;
    if n > 0 {
      AfterAppend(e, k, n - 1);
      assert k + n - 1 == k + (n - 1);
    }
  }

  /** Runs the given number of instructions, or with 0 as many as it takes to halt;
      in that case `n` is the index at which the program halts. */
  method RunInstructions(emulator: Emulator, instructions: nat, ghost n: nat) returns (status: Status)
    requires emulator.Valid()
    requires instructions == 0 ==> FirstHalt(emulator.State(), n)
    modifies emulator, emulator.regs, emulator.memory.memArr
    ensures emulator.Valid()
    ensures status == HALT || status == SUCCESS
    ensures instructions == 0 ==> status == HALT
    ensures status == SUCCESS ==>
      && emulator.State() == After(old(emulator.State()), instructions)
      && forall i: nat :: i < instructions ==> !Record(old(emulator.State()), i).isHalt
    ensures status == HALT ==> exists h: nat ::
      && FirstHalt(old(emulator.State()), h)
      && (instructions == 0 || h < instructions)
      && emulator.State() == After(old(emulator.State()), h + 1)
  {
    hide Step;
    ghost var e := emulator.State();
    var numInstructions := 0;
    status := SUCCESS;
    while instructions == 0 || numInstructions < instructions
      invariant emulator.Valid() && emulator.State() == After(e, numInstructions)
      invariant instructions == 0 || numInstructions <= instructions
      invariant forall i: nat :: i < numInstructions ==> !Record(e, i).isHalt
      invariant instructions == 0 ==> numInstructions <= n
      decreases if instructions == 0 then n + 1 - numInstructions else instructions - numInstructions
    {
      var info := emulator.ExecuteInstruction();
      assert info == Record(e, numInstructions);
      numInstructions := numInstructions + 1;
      if info.isHalt {
        assert FirstHalt(e, numInstructions - 1);
        return HALT;
      }
    }
  }

  /** Runs to the halt instruction; `n` is the index at which the program halts. */
  method RunTillHalt(emulator: Emulator, ghost n: nat) returns (status: Status)
    requires emulator.Valid() && FirstHalt(emulator.State(), n)
    modifies emulator, emulator.regs, emulator.memory.memArr
    ensures emulator.Valid() && status == HALT
    ensures emulator.State() == After(old(emulator.State()), n + 1)
  {
    hide Step;
    ghost var e := emulator.State();
    ghost var k: nat := 0;
    status := SUCCESS;
    while true
      invariant emulator.Valid() && k <= n && emulator.State() == After(e, k)
      decreases n - k
    {
      status := RunInstructions(emulator, 1, 0);
      HaltAtOne(e, k);
      k := k + 1;
      if status == HALT {
        break;
      }
    }
  }

  lemma HaltAtOne(e: EmuState, k: nat)
    ensures Record(After(e, k), 0) == Record(e, k)
    ensures After(After(e, k), 1) == After(e, k + 1)
  {
    hide Step;
    AfterAppend(e, k, 0);
    AfterAppend(e, k, 1);
  }
}
