/**
 The target machine: classic BPF over the seccomp_data structure, as the kernel
 runs it. Run executes a finished program. RunL executes a program that still
 contains symbolic labels and label jumps, which is what the compiler builds
 before bpf_resolve_jumps rewrites it.
 */
module Bpf {
  import opened Words

  const BPF_MAXINSNS: nat := 4096
  const BPF_MEMWORDS: nat := 16

  // Opcodes, written as the sums the emitters use.
  const LD_W_ABS: u16 := 0x20
  const LD_MEM: u16 := 0x60
  const ST: u16 := 0x02
  const JMP_JA: u16 := 0x05
  const JMP_JEQ_K: u16 := 0x15
  const JMP_JGT_K: u16 := 0x25
  const JMP_JGE_K: u16 := 0x35
  const JMP_JSET_K: u16 := 0x45
  const RET_K: u16 := 0x06

  const RET_KILL: u32 := 0
  const RET_KILL_PROCESS: u32 := 0x8000_0000
  const RET_TRAP: u32 := 0x0003_0000
  const RET_ERRNO: u32 := 0x0005_0000
  const RET_LOG: u32 := 0x7ffc_0000
  const RET_ALLOW: u32 := 0x7fff_0000

  const MINIJAIL_ARCH_NR: u32 := 0xC000_003E

  const NEXT: u8 := 0
  const SKIP: u8 := 1
  const JUMP_MARK: u8 := 0xff
  const LABEL_MARK: u8 := 0xfe

  /** struct sock_filter. */
  datatype Instr = Instr(code: u16, k: u32, jt: u8, jf: u8)

  function Stmt(code: u16, k: u32): Instr { Instr(code, k, 0, 0) }

  function Lbl(id: u32): Instr { Instr(JMP_JA, id, LABEL_MARK, LABEL_MARK) }

  function JumpLbl(id: u32): Instr { Instr(JMP_JA, id, JUMP_MARK, JUMP_MARK) }

  predicate IsLbl(i: Instr) { i.code == JMP_JA && i.jt == LABEL_MARK && i.jf == LABEL_MARK }

  predicate IsJumpLbl(i: Instr) { i.code == JMP_JA && i.jt == JUMP_MARK && i.jf == JUMP_MARK }

  /** struct seccomp_data; nr is the bit pattern of the C int. */
  datatype Data = Data(nr: u32, arch: u32, ip: u64, args: seq<u64>) {
    predicate Valid() { |args| == 6 }

    /** The structure as eight little-endian 64-bit slots. */
    function Slot(i: nat): u64
      requires Valid() && i < 8
    {
      if i == 0 then nr + arch * TWO32 else if i == 1 then ip else args[i - 2]
    }

    /** The 32-bit word at a byte offset; the kernel refuses any other offset. */
    function Word(offset: u32): Option<u32>
      requires Valid()
    {
      if offset % 4 != 0 || offset >= 64 then None
      else if offset % 8 == 0 then Some(Lo(Slot(offset / 8)))
      else Some(Hi(Slot(offset / 8)))
    }
  }

  /** The accumulator and the scratch words written so far. */
  datatype Machine = Machine(a: u32, mem: map<nat, u32>)

  datatype Outcome = Ret(value: u32) | Fault

  /** One instruction: stop, or go on after skipping some instructions. */
  datatype StepResult = Stop(outcome: Outcome) | Go(skip: nat, next: Machine)

  function Branch(i: Instr, taken: bool, s: Machine): StepResult {
    Go(if taken then i.jt else i.jf, s)
  }

  function Step(i: Instr, d: Data, s: Machine): StepResult
    requires d.Valid()
  {
    if i.code == LD_W_ABS then
      var w := d.Word(i.k);
      if w.None? then Stop(Fault) else Go(0, s.(a := w.value))
    else if i.code == LD_MEM then
      if i.k in s.mem then Go(0, s.(a := s.mem[i.k])) else Stop(Fault)
    else if i.code == ST then
      if i.k < BPF_MEMWORDS then Go(0, s.(mem := s.mem[i.k := s.a])) else Stop(Fault)
    else if i.code == JMP_JA then Go(i.k, s)
    else if i.code == JMP_JEQ_K then Branch(i, s.a == i.k, s)
    else if i.code == JMP_JGT_K then Branch(i, s.a > i.k, s)
    else if i.code == JMP_JGE_K then Branch(i, s.a >= i.k, s)
    else if i.code == JMP_JSET_K then Branch(i, AndNonZero(s.a, i.k, 32), s)
    else if i.code == RET_K then Stop(Ret(i.k))
    else Stop(Fault)
  }

  /** The kernel's run of a finished program. Jumps only go forward. */
  function Run(p: seq<Instr>, d: Data, pc: nat, s: Machine): Outcome
    requires d.Valid()
    decreases |p| - pc
  {
    if pc >= |p| then Fault
    else match Step(p[pc], d, s)
      case Stop(o) => o
      case Go(n, s') => if pc + 1 + n > |p| then Fault else Run(p, d, pc + 1 + n, s')
  }

  const RESET: Machine := Machine(0, map[])

  /** What a system call gets from an installed filter. */
  function Filter(p: seq<Instr>, d: Data): Outcome
    requires d.Valid()
  {
    Run(p, d, 0, RESET)
  }

  /** The number of instructions a run executes. */
  function Steps(p: seq<Instr>, d: Data, pc: nat, s: Machine): (n: nat)
    requires d.Valid()
    ensures pc <= |p| ==> n <= |p| - pc
    decreases |p| - pc
  {
    if pc >= |p| then 0
    else match Step(p[pc], d, s)
      case Stop(o) => 1
      case Go(n, s') => if pc + 1 + n > |p| then 1 else 1 + Steps(p, d, pc + 1 + n, s')
  }

  /** The first label with this id at or after a position. */
  function LabelFrom(p: seq<Instr>, from: nat, id: u32): (r: Option<nat>)
    ensures r.Some? ==> from <= r.value < |p| && p[r.value] == Lbl(id)
    decreases |p| - from
  {
    if from >= |p| then None
    else if p[from] == Lbl(id) then Some(from)
    else LabelFrom(p, from + 1, id)
  }

  /** Runs a program with symbolic labels: a label is a no-op, a label jump goes
      to the next label with that id. */
  function RunL(p: seq<Instr>, d: Data, pc: nat, s: Machine): Outcome
    requires d.Valid()
    decreases |p| - pc
  {
    if pc >= |p| then Fault
    else if IsLbl(p[pc]) then RunL(p, d, pc + 1, s)
    else if IsJumpLbl(p[pc]) then
      var target := LabelFrom(p, pc + 1, p[pc].k);
      if target.None? then Fault else RunL(p, d, target.value, s)
    else match Step(p[pc], d, s)
      case Stop(o) => o
      case Go(n, s') => if pc + 1 + n > |p| then Fault else RunL(p, d, pc + 1 + n, s')
  }

  /** LabelFrom misses no label. */
  lemma {:induction false} LabelFromFirst(p: seq<Instr>, from: nat, id: u32, j: nat)
    requires from <= j < |p| && p[j] == Lbl(id)
    ensures LabelFrom(p, from, id).Some? && LabelFrom(p, from, id).value <= j
    decreases j - from
  {
    if p[from] != Lbl(id) {
      LabelFromFirst(p, from + 1, id, j);
    }
  }

  /** From a position on, no id is carried by two labels. */
  predicate UniqueFrom(p: seq<Instr>, from: nat)
    decreases |p| - from
  {
    from >= |p| || ((IsLbl(p[from]) ==> LabelFrom(p, from + 1, p[from].k).None?) && UniqueFrom(p, from + 1))
  }

  lemma {:induction false} UniqueIds(p: seq<Instr>, from: nat, i: nat, j: nat)
    requires UniqueFrom(p, from) && from <= i < j < |p| && IsLbl(p[i]) && IsLbl(p[j])
    ensures p[i].k != p[j].k
    decreases |p| - from
  {
    if from < i {
      UniqueIds(p, from + 1, i, j);
    } else if p[i].k == p[j].k {
      LabelFromFirst(p, from + 1, p[i].k, j);
    }
  }

  /** With unique labels a jump reaches the label wherever it is placed later. */
  lemma JumpReaches(p: seq<Instr>, d: Data, pc: nat, s: Machine, id: u32, target: nat)
    requires d.Valid() && UniqueFrom(p, 0)
    requires pc < target < |p| && p[pc] == JumpLbl(id) && p[target] == Lbl(id)
    ensures RunL(p, d, pc, s) == RunL(p, d, target, s)
  {
    LabelFromFirst(p, pc + 1, id, target);
    var found := LabelFrom(p, pc + 1, id).value;
    if found < target {
      UniqueIds(p, 0, found, target);
    }
  }
}
