/** The CPU as an object: context_switch.S and the stubs of isr_stubs.S run on its
    registers and on RAM, and do what ContextSwitch and Interrupts say. */
module Processor {
  import opened PageEntry
  import opened Ram
  import opened StackMachine
  import opened ContextSwitch
  import opened Interrupts
  import opened Tasks

  class Cpu {
    const ram: array<Word>
    var regs: seq<Word>
    /** rsp / 8 */
    var sp: nat
    var rip: Word
    var cs: Word
    var rflags: Word
    var ss: Word
    var cr3: Word
    /** The kernel stack the TSS names for entries from user mode. */
    var rsp0: nat

    constructor (ram: array<Word>, s: Machine, cr3: Word)
      requires ram.Length == |s.mem| && ram[..] == s.mem
      ensures this.ram == ram && this.cr3 == cr3 && State() == s
    {
      this.ram, this.cr3, rsp0 := ram, cr3, 0;
      regs, sp, rip, cs, rflags, ss := s.regs, s.sp, s.rip, s.cs, s.rflags, s.ss;
    }

    ghost function State(): (s: Machine)
      reads this`regs, this`sp, this`rip, this`cs, this`rflags, this`ss, ram
      ensures |s.mem| == ram.Length && s.sp == sp && s.regs == regs && s.mem == ram[..]
    {
      Machine(regs, sp, rip, cs, rflags, ss, ram[..])
    }

    method Push(v: Word)
      requires 1 <= sp <= ram.Length
      modifies this`sp, ram
      ensures State() == PushWord(old(State()), v)
    {
      sp := sp - 1;
      ram[sp] := v;
    }

    /** A run of push instructions. */
    method PushRegs(rs: seq<Reg>)
      requires Room(State(), |rs|, 0)
      modifies this`sp, ram
      ensures State() == PushAll(rs, old(State()))
    {
      for i := 0 to |rs|
        invariant Room(State(), |rs| - i, 0)
        invariant PushAll(rs[i..], State()) == PushAll(rs, old(State()))
      {
        assert rs[i..][1..] == rs[i + 1..];
        Push(regs[rs[i]]);
      }
    }

    /** A run of pop instructions. */
    method PopRegs(rs: seq<Reg>)
      requires Room(State(), 0, |rs|)
      modifies this`sp, this`regs
      ensures State() == PopAll(rs, old(State()))
    {
      for i := 0 to |rs|
        invariant Room(State(), 0, |rs| - i)
        invariant PopAll(rs[i..], State()) == PopAll(rs, old(State()))
      {
        assert rs[i..][1..] == rs[i + 1..];
        regs, sp := regs[rs[i] := ram[sp]], sp + 1;
      }
    }

    /** The stack pointer that context_switch loads. */
    ghost function IncomingSp(prev: Task?, next: Task): nat
      reads this`sp, next`savedRsp
    {
      if prev == next && sp >= 6 then sp - 6 else next.savedRsp / 8
    }

    /** context_switch */
    method SwitchContext(prev: Task?, next: Task)
      requires Room(State(), 6, 1)
      requires next.savedRsp % 8 == 0 && IncomingSp(prev, next) + 7 <= ram.Length
      modifies this`sp, this`regs, this`rip, ram, (if prev == null then {} else {prev})`savedRsp
      ensures State() == LoadContext(SaveContext(old(State())).(sp := old(IncomingSp(prev, next))))
      ensures prev != null ==> prev.savedRsp == 8 * (old(sp) - 6)
    {
      hide PushAll, PopAll;
      PushRegs(SWITCH_PUSHES);
      if prev != null {
        prev.savedRsp := 8 * sp;
      }
      sp := next.savedRsp / 8;
      PopRegs(SWITCH_POPS);
      rip, sp := ram[sp], sp + 1;
    }

    /** What the CPU does on a hardware interrupt. */
    method TakeInterrupt(gate: Word, gateCs: Word, masked: Word)
      requires 6 <= sp <= ram.Length && 8 * sp < WORD_LIMIT
      modifies this`sp, this`rip, this`cs, this`rflags, ram
      ensures State() == EnterGate(old(State()), gate, gateCs, masked)
    {
      hide PushWord;
      var rsp := 8 * sp;
      sp := Aligned(sp);
      Push(ss);
      Push(rsp);
      Push(rflags);
      Push(cs);
      Push(rip);
      rip, cs, rflags := gate, gateCs, masked;
    }

    /** An IRQ stub up to the call of irq_handler, whose return address is `back`. */
    method EnterHandler(vector: Word, back: Word)
      requires Room(State(), 18, 0) && 8 * sp < WORD_LIMIT
      modifies this`sp, this`regs, ram
      ensures State() == EnterStub(old(State()), vector, back)
    {
      hide PushWord, PushAll;
      Push(0);
      Push(vector);
      PushRegs(STUB_PUSHES);
      regs := regs[RDI := 8 * sp];
      Push(back);
    }

    /** The rest of irq_common_stub, once irq_handler has returned. */
    method LeaveInterrupt()
      requires Room(State(), 0, 22)
      modifies this`sp, this`regs, this`rip, this`cs, this`rflags, this`ss
      ensures State() == LeaveStub(old(State()))
    {
      hide PopAll;
      PopRegs(STUB_POPS);
      sp := sp + 2;
      rip, cs, rflags, sp, ss := ram[sp], ram[sp + 1], ram[sp + 2], ram[sp + 3] / 8, ram[sp + 4];
    }

    /** Any code: the registers and RAM become those of `at`. */
    method Become(at: Machine)
      requires |at.mem| == ram.Length
      modifies this`regs, this`sp, this`rip, this`cs, this`rflags, this`ss, ram
      ensures State() == at
    {
      regs, sp, rip, cs, rflags, ss := at.regs, at.sp, at.rip, at.cs, at.rflags, at.ss;
      forall k | 0 <= k < ram.Length {
        ram[k] := at.mem[k];
      }
      assert ram[..] == at.mem;
    }
  }
}
