/** The part of an x86-64 CPU that context switching and interrupt entry depend
    on: general registers, the stack, and the words the CPU itself pushes. */
module StackMachine {
  import opened PageEntry
  import opened Ram

  /** The general registers, numbered by their fields in struct InterruptFrame. */
  type Reg = r: nat | r < 15 witness 0

  const R15: Reg := 0
  const R14: Reg := 1
  const R13: Reg := 2
  const R12: Reg := 3
  const R11: Reg := 4
  const R10: Reg := 5
  const R9: Reg := 6
  const R8: Reg := 7
  const RBP: Reg := 8
  const RDI: Reg := 9
  const RSI: Reg := 10
  const RDX: Reg := 11
  const RCX: Reg := 12
  const RBX: Reg := 13
  const RAX: Reg := 14

  /** `sp` is the word the stack pointer addresses: rsp == 8 * sp. */
  datatype Machine = Machine(regs: seq<Word>, sp: nat, rip: Word, cs: Word, rflags: Word, ss: Word, mem: Memory)

  /** The machine has all registers, `down` words below its stack pointer and `up`
      words from it on. */
  ghost predicate Room(s: Machine, down: nat, up: nat)
  {
    |s.regs| == 15 && down <= s.sp && s.sp + up <= |s.mem|
  }

  function PushWord(s: Machine, v: Word): (s': Machine)
    requires 1 <= s.sp <= |s.mem|
    ensures |s'.mem| == |s.mem| && s' == s.(sp := s.sp - 1, mem := s'.mem)
    ensures forall k :: 0 <= k < |s.mem| ==> s'.mem[k] == if k == s.sp - 1 then v else s.mem[k]
  {
    s.(sp := s.sp - 1, mem := s.mem[s.sp - 1 := v])
  }

  function PopInto(s: Machine, r: Reg): Machine
    requires s.sp < |s.mem| && |s.regs| == 15
  {
    s.(regs := s.regs[r := s.mem[s.sp]], sp := s.sp + 1)
  }

  /** ret */
  function Return(s: Machine): Machine
    requires s.sp < |s.mem|
  {
    s.(rip := s.mem[s.sp], sp := s.sp + 1)
  }

  /** push r1; push r2; ... */
  ghost function PushAll(rs: seq<Reg>, s: Machine): (s': Machine)
    requires Room(s, |rs|, 0)
    ensures Room(s', 0, |rs|) && |s'.mem| == |s.mem|
    ensures s' == s.(sp := s.sp - |rs|, mem := s'.mem)
    decreases |rs|
  {
    if rs == [] then s else PushAll(rs[1..], PushWord(s, s.regs[rs[0]]))
  }

  /** pop r1; pop r2; ... */
  ghost function PopAll(rs: seq<Reg>, s: Machine): (s': Machine)
    requires Room(s, 0, |rs|)
    ensures Room(s', |rs|, 0)
    ensures s' == s.(sp := s.sp + |rs|, regs := s'.regs)
    decreases |rs|
  {
    if rs == [] then s else PopAll(rs[1..], PopInto(s, rs[0]))
  }

  /** After the pushes the registers lie above the stack pointer, the last pushed
      one lowest, and no other word has changed. */
  lemma {:induction false} PushAllMeaning(rs: seq<Reg>, s: Machine, k: nat)
    requires Room(s, |rs|, 0) && k < |s.mem|
    ensures PushAll(rs, s).mem[k] ==
              if s.sp - |rs| <= k < s.sp then s.regs[rs[s.sp - 1 - k]] else s.mem[k]
    decreases |rs|
  {
    if rs == [] {
    } else {
      PushAllMeaning(rs[1..], PushWord(s, s.regs[rs[0]]), k);
    }
  }

  predicate Distinct(rs: seq<Reg>)
  {
    forall i, j :: 0 <= i < j < |rs| ==> rs[i] != rs[j]
  }

  /** After the pops each named register holds its word. */
  lemma {:induction false} PopAllMeaning(rs: seq<Reg>, s: Machine, k: nat)
    requires Room(s, 0, |rs|) && Distinct(rs) && k < |rs|
    ensures PopAll(rs, s).regs[rs[k]] == s.mem[s.sp + k]
    decreases |rs|
  {
    if k == 0 {
      PopAllKeeps(rs[1..], PopInto(s, rs[0]), rs[0]);
    } else {
      assert rs[1..][k - 1] == rs[k];
      PopAllMeaning(rs[1..], PopInto(s, rs[0]), k - 1);
    }
  }

  lemma {:induction false} PopAllKeeps(rs: seq<Reg>, s: Machine, r: Reg)
    requires Room(s, 0, |rs|) && r !in rs
    ensures PopAll(rs, s).regs[r] == s.regs[r]
    decreases |rs|
  {
    if rs == [] {
    } else {
      PopAllKeeps(rs[1..], PopInto(s, rs[0]), r);
    }
  }

}
