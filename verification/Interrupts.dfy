/** Interrupt entry and exit: what the CPU pushes in 64-bit mode, the common stub
    of isr_stubs.S around irq_handler, and why a preempted thread does not notice. */
module Interrupts {
  import opened PageEntry
  import opened Ram
  import opened StackMachine
  import opened ContextSwitch

  const STUB_PUSHES: seq<Reg> := [RAX, RBX, RCX, RDX, RSI, RDI, RBP, R8, R9, R10, R11, R12, R13, R14, R15]
  /** The register fields of struct InterruptFrame, in order. */
  const STUB_POPS: seq<Reg> := [R15, R14, R13, R12, R11, R10, R9, R8, RBP, RDI, RSI, RDX, RCX, RBX, RAX]

  lemma StubLists()
    ensures |STUB_PUSHES| == |STUB_POPS| == 15
    ensures forall i: Reg :: STUB_POPS[i] == i == STUB_PUSHES[14 - i]
  {
  }

  /** The CPU aligns the stack pointer down to 16 bytes before it pushes. */
  function Aligned(sp: nat): (a: nat)
    ensures a <= sp <= a + 1 && a % 2 == 0
  {
    sp - sp % 2
  }

  /** The CPU enters an interrupt gate: it pushes ss, rsp, rflags, cs and rip and
      continues at the gate with the gate's code segment and masked flags. */
  function EnterGate(s: Machine, gate: Word, cs: Word, rflags: Word): (s': Machine)
    requires 6 <= s.sp <= |s.mem| && 8 * s.sp < WORD_LIMIT
    ensures s' == s.(sp := Aligned(s.sp) - 5, rip := gate, cs := cs, rflags := rflags, mem := s'.mem)
    ensures |s'.mem| == |s.mem|
  {
    var s1 := PushWord(PushWord(s.(sp := Aligned(s.sp)), s.ss), 8 * s.sp);
    var s2 := PushWord(PushWord(PushWord(s1, s.rflags), s.cs), s.rip);
    s2.(rip := gate, cs := cs, rflags := rflags)
  }

  /** iretq, for a stack pointer that is a multiple of 8. */
  function LeaveGate(s: Machine): Machine
    requires s.sp + 5 <= |s.mem|
  {
    s.(rip := s.mem[s.sp], cs := s.mem[s.sp + 1], rflags := s.mem[s.sp + 2], sp := s.mem[s.sp + 3] / 8,
        ss := s.mem[s.sp + 4])
  }

  /** The fifteen pushes of irq_common_stub. */
  ghost function SaveAll(s: Machine): (s': Machine)
    requires Room(s, 15, 0)
    ensures Room(s', 0, 15) && s' == s.(sp := s.sp - 15, mem := s'.mem) && |s'.mem| == |s.mem|
  {
    PushAll(STUB_PUSHES, s)
  }

  /** The fifteen pops of irq_common_stub. */
  ghost function RestoreAll(s: Machine): (s': Machine)
    requires Room(s, 0, 15)
    ensures |s'.regs| == 15 && s' == s.(sp := s.sp + 15, regs := s'.regs)
  {
    PopAll(STUB_POPS, s)
  }

  lemma SavedWord(s: Machine, k: nat)
    requires Room(s, 15, 0) && k < |s.mem|
    ensures s.sp <= k ==> SaveAll(s).mem[k] == s.mem[k]
    ensures s.sp - 15 <= k < s.sp ==> SaveAll(s).mem[k] == s.regs[k - (s.sp - 15)]
  {
    hide PushAll, Distinct;
    PushAllMeaning(STUB_PUSHES, s, k);
    if s.sp - 15 <= k < s.sp {
      StubLists();
    }
  }

  lemma RestoredReg(s: Machine, r: Reg)
    requires Room(s, 0, 15)
    ensures RestoreAll(s).regs[r] == s.mem[s.sp + r]
  {
    hide PopAll, Distinct;
    StubLists();
    PopAllMeaning(STUB_POPS, s, r);
  }

  /** irq0 / irq1: the two words pushed before the jump to the common stub. */
  function PushVector(s: Machine, vector: Word): (s': Machine)
    requires 2 <= s.sp <= |s.mem|
    ensures s' == s.(sp := s.sp - 2, mem := s'.mem) && |s'.mem| == |s.mem|
    ensures s'.mem[s'.sp] == vector && s'.mem[s'.sp + 1] == 0
    ensures forall k :: s.sp <= k < |s.mem| ==> s'.mem[k] == s.mem[k]
  {
    PushWord(PushWord(s, 0), vector)
  }

  /** `mov %rsp, %rdi; call irq_handler`. */
  function CallHandler(s: Machine, back: Word): (s': Machine)
    requires Room(s, 1, 0) && 8 * s.sp < WORD_LIMIT
    ensures |s'.regs| == 15 && s'.sp == s.sp - 1 && |s'.mem| == |s.mem| && s'.regs[RDI] == 8 * s.sp
    ensures s'.mem[s'.sp] == back
    ensures forall k :: s.sp <= k < |s.mem| ==> s'.mem[k] == s.mem[k]
  {
    PushWord(s.(regs := s.regs[RDI := 8 * s.sp]), back)
  }

  /** irq0 / irq1 and the first half of irq_common_stub, up to the call. */
  ghost function EnterStub(s: Machine, vector: Word, back: Word): (s': Machine)
    requires Room(s, 18, 0) && 8 * s.sp < WORD_LIMIT
    ensures Room(s', 0, 18) && s'.sp == s.sp - 18 && |s'.mem| == |s.mem|
  {
    hide SaveAll, PushVector, CallHandler;
    CallHandler(SaveAll(PushVector(s, vector)), back)
  }

  /** The second half of irq_common_stub: pops, `add $16, %rsp`, iretq. */
  ghost function LeaveStub(s: Machine): Machine
    requires Room(s, 0, 22)
  {
    hide RestoreAll;
    var s1 := RestoreAll(s);
    LeaveGate(s1.(sp := s1.sp + 2))
  }

  /** The state in which irq_handler is called for thread state `s`. */
  ghost function HandlerCalled(s: Machine, gate: Word, cs: Word, rflags: Word, vector: Word, back: Word): (h: Machine)
    requires Room(s, 24, 0) && 8 * s.sp < WORD_LIMIT
    ensures Room(h, 0, 23) && h.sp == Aligned(s.sp) - 23 && |h.mem| == |s.mem|
  {
    EnterStub(EnterGate(s, gate, cs, rflags), vector, back)
  }

  /** The five words the CPU leaves. */
  lemma GateWords(s: Machine, gate: Word, cs: Word, rflags: Word)
    requires 6 <= s.sp <= |s.mem| && 8 * s.sp < WORD_LIMIT
    ensures var g := EnterGate(s, gate, cs, rflags);
      && g.mem[g.sp] == s.rip && g.mem[g.sp + 1] == s.cs && g.mem[g.sp + 2] == s.rflags
      && g.mem[g.sp + 3] == 8 * s.sp && g.mem[g.sp + 4] == s.ss
      && forall k :: s.sp <= k < |s.mem| ==> g.mem[k] == s.mem[k]
  {
  }

  /** The words the stub leaves below them: struct InterruptFrame with the return
      address beneath. */
  lemma StubWords(g: Machine, vector: Word, back: Word)
    requires Room(g, 18, 0) && 8 * g.sp < WORD_LIMIT
    ensures var h := EnterStub(g, vector, back);
      && h.regs[RDI] == 8 * (h.sp + 1) && h.mem[h.sp] == back
      && (forall r: Reg :: h.mem[h.sp + 1 + r] == g.regs[r])
      && h.mem[h.sp + 16] == vector && h.mem[h.sp + 17] == 0
      && forall k :: g.sp <= k < |g.mem| ==> h.mem[k] == g.mem[k]
  {
    hide SaveAll, PushVector, CallHandler;
    var g2 := PushVector(g, vector);
    forall r: Reg
      ensures SaveAll(g2).mem[g2.sp - 15 + r] == g.regs[r]
    {
      SavedWord(g2, g2.sp - 15 + r);
    }
    forall k | g2.sp <= k < |g.mem|
      ensures SaveAll(g2).mem[k] == g2.mem[k]
    {
      SavedWord(g2, k);
    }
  }

  /** A handler that returns as the calling convention demands leaves the
      interrupted thread exactly as it was: all fifteen registers, rip, cs,
      rflags, rsp, ss, and its stack. */
  lemma InterruptIsTransparent(s: Machine, gate: Word, cs: Word, rflags: Word, vector: Word, back: Word,
                               e: Machine, top: nat)
    requires Room(s, 24, 0) && 8 * s.sp < WORD_LIMIT && s.sp <= top <= |s.mem|
    requires Returned(HandlerCalled(s, gate, cs, rflags, vector, back), e, top)
    ensures Room(e, 0, 22) && |e.mem| == |s.mem|
    ensures var f := LeaveStub(e);
      && |f.mem| == |s.mem| && f.regs == s.regs
      && f.sp == s.sp && f.rip == s.rip && f.cs == s.cs && f.rflags == s.rflags && f.ss == s.ss
      && forall k :: s.sp <= k < top ==> f.mem[k] == s.mem[k]
  {
    hide EnterGate, EnterStub, RestoreAll, Aligned;
    var g := EnterGate(s, gate, cs, rflags);
    GateWords(s, gate, cs, rflags);
    StubWords(g, vector, back);
    forall r: Reg
      ensures LeaveStub(e).regs[r] == s.regs[r]
    {
      RestoredReg(e, r);
    }
  }
}
