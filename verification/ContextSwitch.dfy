/** context_switch.S as a program of the stack machine: what it leaves on the
    outgoing stack, what it takes from the incoming one, and the frame that
    task_create_kernel_thread forges for the first switch. */
module ContextSwitch {
  import opened PageEntry
  import opened Ram
  import opened StackMachine

  const SWITCH_PUSHES: seq<Reg> := [RBP, RBX, R12, R13, R14, R15]
  /** The field order of struct CpuContext. */
  const SWITCH_POPS: seq<Reg> := [R15, R14, R13, R12, RBX, RBP]

  lemma SwitchLists()
    ensures |SWITCH_PUSHES| == |SWITCH_POPS| == 6 && Distinct(SWITCH_POPS)
    ensures forall i :: 0 <= i < 6 ==> SWITCH_POPS[i] == SWITCH_PUSHES[5 - i]
  {
  }

  /** The registers a callee keeps (System V AMD64 psABI, section 3.2.1). */
  predicate CalleeSaved(r: Reg)
  {
    r == RBX || r == RBP || r == R12 || r == R13 || r == R14 || r == R15
  }

  function Slot(r: Reg): (i: nat)
    ensures CalleeSaved(r) ==> i < 6 && SWITCH_POPS[i] == r
  {
    if r < 4 then r else if r == RBX then 4 else 5
  }

  /** `c` is a machine about to run a function: its return address is on top of
      its stack, which ends below word `top`.  `b` is what its caller may expect
      afterwards: the return address taken, the callee-saved registers and the
      stack from the return address up as they were. */
  ghost predicate Returned(c: Machine, b: Machine, top: nat)
  {
    && |c.regs| == 15 && |b.regs| == 15 && c.sp < top <= |c.mem| == |b.mem|
    && (forall r: Reg :: CalleeSaved(r) ==> b.regs[r] == c.regs[r])
    && b.sp == c.sp + 1 && b.rip == c.mem[c.sp]
    && (forall k :: c.sp <= k < top ==> b.mem[k] == c.mem[k])
  }

  /** Memory `m` keeps the computation that stopped in state `c`, at the entry of
      context_switch, in the CpuContext at word `saved`. */
  ghost predicate Kept(m: Memory, saved: nat, top: nat, c: Machine)
  {
    && |c.regs| == 15 && saved + 6 == c.sp < top <= |m| == |c.mem|
    && (forall i :: 0 <= i < 6 ==> m[saved + i] == c.regs[SWITCH_POPS[i]])
    && (forall k :: c.sp <= k < top ==> m[k] == c.mem[k])
  }

  /** The first half: six pushes. */
  ghost function SaveContext(c: Machine): (s: Machine)
    requires Room(c, 6, 1)
    ensures Room(s, 0, 7) && s == c.(sp := c.sp - 6, mem := s.mem) && |s.mem| == |c.mem|
  {
    PushAll(SWITCH_PUSHES, c)
  }

  /** The second half: six pops and ret. */
  ghost function LoadContext(s: Machine): (b: Machine)
    requires Room(s, 0, 7)
    ensures |b.regs| == 15 && b == s.(sp := s.sp + 7, regs := b.regs, rip := s.mem[s.sp + 6])
  {
    Return(PopAll(SWITCH_POPS, s))
  }

  lemma SaveKeeps(c: Machine, top: nat)
    requires Room(c, 6, 1)
    ensures c.sp < top <= |c.mem| ==> Kept(SaveContext(c).mem, c.sp - 6, top, c)
    ensures forall k :: 0 <= k < |c.mem| && !(c.sp - 6 <= k < c.sp) ==> SaveContext(c).mem[k] == c.mem[k]
  {
    hide PushAll, Distinct;
    forall k | 0 <= k < |c.mem|
      ensures SaveContext(c).mem[k] == if c.sp - 6 <= k < c.sp then c.regs[SWITCH_PUSHES[c.sp - 1 - k]] else c.mem[k]
    {
      PushAllMeaning(SWITCH_PUSHES, c, k);
    }
    SwitchLists();
  }

  lemma LoadResumes(s: Machine, top: nat, c: Machine)
    requires |s.regs| == 15 && Kept(s.mem, s.sp, top, c)
    ensures Returned(c, LoadContext(s), top)
  {
    hide PopAll, Distinct;
    SwitchLists();
    forall r: Reg | CalleeSaved(r)
      ensures LoadContext(s).regs[r] == c.regs[r]
    {
      PopAllMeaning(SWITCH_POPS, s, Slot(r));
    }
  }

  lemma KeptElsewhere(m: Memory, m': Memory, saved: nat, top: nat, c: Machine)
    requires Kept(m, saved, top, c) && |m'| == |m|
    requires forall k :: saved <= k < top ==> m'[k] == m[k]
    ensures Kept(m', saved, top, c)
  {
  }

  /** The state task_create_kernel_thread pretends was suspended: nothing in the
      registers, and a stack that holds only the entry point. */
  ghost function Forged(m: Memory, top: nat, entry: Word): Machine
    requires 7 <= top <= |m|
  {
    Machine(seq(15, i => 0), top - 1, 0, 0, 0, 0, m[top - 1 := entry])
  }

  lemma ForgedIsKept(m: Memory, top: nat, entry: Word)
    requires 7 <= top <= |m| && m[top - 1] == entry
    requires forall k :: top - 7 <= k < top - 1 ==> m[k] == 0
    ensures Kept(m, top - 7, top, Forged(m, top, entry))
  {
  }

  /** The first switch to a thread runs its entry point on an empty stack with
      clear callee-saved registers. */
  lemma FirstResume(m: Memory, top: nat, entry: Word, b: Machine)
    requires 7 <= top <= |m| && Returned(Forged(m, top, entry), b, top)
    ensures b.rip == entry && b.sp == top
    ensures forall r: Reg :: CalleeSaved(r) ==> b.regs[r] == 0
  {
  }
}
