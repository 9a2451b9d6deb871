/**
 The comparison emitters of bpf.c for 64-bit little-endian targets: each compares
 a 64-bit system call argument with a constant using 32-bit loads and jumps.
 The functions give the instructions of each block; the lemmas prove that running
 a block decides the 64-bit comparison exactly; the methods write the blocks into
 a buffer the way the C code does.
 */
module Compare {
  import opened Words
  import opened Bpf

  datatype Op = EQ | NE | LT | LE | GT | GE | SET | IN

  /** What a policy author means by `argument op constant`. */
  predicate Holds(op: Op, x: u64, c: u64) {
    match op
    case EQ => x == c
    case NE => x != c
    case LT => x < c
    case LE => x <= c
    case GT => x > c
    case GE => x >= c
    case SET => exists i: nat :: i < 64 && Bit(x, i) && Bit(c, i)
    case IN => forall i: nat :: i < 64 && Bit(x, i) ==> Bit(c, i)
  }

  /** Byte offsets of an argument's halves; like the C expressions they are cut to 32 bits. */
  function LoArg(argidx: int): u32 { (16 + 8 * argidx) % TWO32 }

  function HiArg(argidx: int): u32 { (20 + 8 * argidx) % TWO32 }

  /** The 64-bit slot of seccomp_data that those offsets name. */
  function ArgSlot(argidx: int): nat { (argidx + 2) % 0x2000_0000 }

  /** Unsigned char arithmetic on jump distances. */
  function Dist(n: u8, j: u8): u8 { (n + j) % 0x100 }

  function LoadArg(argidx: int): seq<Instr> {
    [Stmt(LD_W_ABS, LoArg(argidx)), Stmt(ST, 0), Stmt(LD_W_ABS, HiArg(argidx)), Stmt(ST, 1)]
  }

  function CompJeq(c: u64, jt: u8, jf: u8): seq<Instr> {
    [Instr(JMP_JEQ_K, Hi(c), NEXT, Dist(2, jf)), Stmt(LD_MEM, 0), Instr(JMP_JEQ_K, Lo(c), jt, jf)]
  }

  /** bpf_comp_jgt64 and bpf_comp_jge64 differ in the last opcode only. */
  function CompOrder(last: u16, c: u64, jt: u8, jf: u8): seq<Instr> {
    (if Hi(c) == 0 then [Instr(JMP_JGT_K, Hi(c), Dist(2, jt), NEXT)]
     else [Instr(JMP_JGT_K, Hi(c), Dist(3, jt), NEXT), Instr(JMP_JEQ_K, Hi(c), NEXT, Dist(2, jf))])
    + [Stmt(LD_MEM, 0), Instr(last, Lo(c), jt, jf)]
  }

  function CompJset(mask: u64, jt: u8, jf: u8): seq<Instr> {
    [Instr(JMP_JSET_K, Hi(mask), Dist(2, jt), NEXT), Stmt(LD_MEM, 0), Instr(JMP_JSET_K, Lo(mask), jt, jf)]
  }

  function CompJin(mask: u64, jt: u8, jf: u8): seq<Instr> { CompJset(Not64(mask), jf, jt) }

  /** The comparison chosen by bpf_arg_comp, which skips one instruction when it holds. */
  function Comp(op: Op, c: u64): seq<Instr> {
    match op
    case EQ => CompJeq(c, SKIP, NEXT)
    case NE => CompJeq(c, NEXT, SKIP)
    case LT => CompOrder(JMP_JGE_K, c, NEXT, SKIP)
    case LE => CompOrder(JMP_JGT_K, c, NEXT, SKIP)
    case GT => CompOrder(JMP_JGT_K, c, SKIP, NEXT)
    case GE => CompOrder(JMP_JGE_K, c, SKIP, NEXT)
    case SET => CompJset(c, SKIP, NEXT)
    case IN => CompJin(c, SKIP, NEXT)
  }

  function ArgComp(op: Op, argidx: int, c: u64, id: u32): seq<Instr> {
    LoadArg(argidx) + Comp(op, c) + [JumpLbl(id)]
  }

  /** bpf_arg_comp_len: the size of the buffer that bpf_arg_comp allocates. */
  function ArgCompLen(op: Op, c: u64): nat {
    if op in {LT, LE, GT, GE} && Hi(c) != 0 then 9 else 8
  }

  // ----- What the blocks do -----

  /** A block occupies the instructions from a position on. */
  predicate CodeAt(p: seq<Instr>, at: nat, code: seq<Instr>)
    decreases |code|
  {
    at + |code| <= |p| && (code == [] || (p[at] == code[0] && CodeAt(p, at + 1, code[1..])))
  }

  lemma {:induction false} CodeAtIndex(p: seq<Instr>, at: nat, code: seq<Instr>, i: nat)
    requires CodeAt(p, at, code) && i < |code|
    ensures p[at + i] == code[i]
    decreases i
  {
    if i > 0 {
      CodeAtIndex(p, at + 1, code[1..], i - 1);
    }
  }

  lemma {:induction false} CodeAtSplit(p: seq<Instr>, at: nat, a: seq<Instr>, b: seq<Instr>)
    requires CodeAt(p, at, a + b)
    ensures CodeAt(p, at, a) && CodeAt(p, at + |a|, b)
    decreases |a|
  {
    if a == [] {
      assert a + b == b;
    } else {
      assert (a + b)[1..] == a[1..] + b;
      CodeAtSplit(p, at + 1, a[1..], b);
    }
  }

  lemma {:induction false} CodeAtSlice(p: seq<Instr>, at: nat, code: seq<Instr>)
    requires at + |code| <= |p| && p[at..at + |code|] == code
    ensures CodeAt(p, at, code)
    decreases |code|
  {
    if code != [] {
      assert p[at] == p[at..at + |code|][0];
      assert p[at + 1..at + 1 + |code[1..]|] == p[at..at + |code|][1..];
      CodeAtSlice(p, at + 1, code[1..]);
    }
  }

  /** The machine after an argument has been loaded. */
  function Loaded(s: Machine, x: u64): Machine {
    Machine(Hi(x), s.mem[0 := Lo(x)][1 := Hi(x)])
  }

  /** Cut to 32 bits, the offsets are those of a slot. */
  lemma ArgOffset(argidx: int)
    ensures LoArg(argidx) == 8 * ArgSlot(argidx) && HiArg(argidx) == 8 * ArgSlot(argidx) + 4
  {
    var q := (argidx + 2) / 0x2000_0000;
    assert 16 + 8 * argidx == q * TWO32 + 8 * ArgSlot(argidx);
  }

  lemma ArgWords(d: Data, argidx: int)
    requires d.Valid() && ArgSlot(argidx) < 8
    ensures d.Word(LoArg(argidx)) == Some(Lo(d.Slot(ArgSlot(argidx))))
    ensures d.Word(HiArg(argidx)) == Some(Hi(d.Slot(ArgSlot(argidx))))
  {
    ArgOffset(argidx);
  }

  /** bpf_load_arg puts the low half in M[0], the high half in M[1] and in A. */
  lemma LoadArgRuns(p: seq<Instr>, d: Data, at: nat, s: Machine, argidx: int)
    requires d.Valid() && ArgSlot(argidx) < 8 && CodeAt(p, at, LoadArg(argidx))
    ensures RunL(p, d, at, s) == RunL(p, d, at + 4, Loaded(s, d.Slot(ArgSlot(argidx))))
  {
    var code := LoadArg(argidx);
    CodeAtIndex(p, at, code, 0);
    CodeAtIndex(p, at, code, 1);
    CodeAtIndex(p, at, code, 2);
    CodeAtIndex(p, at, code, 3);
    ArgWords(d, argidx);
    var x := d.Slot(ArgSlot(argidx));
    var s1 := s.(a := Lo(x));
    var s2 := s1.(mem := s.mem[0 := Lo(x)]);
    var s3 := s2.(a := Hi(x));
    assert RunL(p, d, at, s) == RunL(p, d, at + 1, s1);
    assert RunL(p, d, at + 1, s1) == RunL(p, d, at + 2, s2);
    assert RunL(p, d, at + 2, s2) == RunL(p, d, at + 3, s3);
  }

  /** The machine holds the argument x: its high half in A, its low half in M[0]. */
  predicate Holding(s: Machine, x: u64) { s.a == Hi(x) && 0 in s.mem && s.mem[0] == Lo(x) }

  lemma JeqRuns(p: seq<Instr>, d: Data, at: nat, s: Machine, x: u64, c: u64, jt: u8, jf: u8) returns (s': Machine)
    requires d.Valid() && Holding(s, x) && jt <= 1 && jf <= 1
    requires CodeAt(p, at, CompJeq(c, jt, jf)) && at + 4 <= |p|
    ensures RunL(p, d, at, s) == RunL(p, d, at + 3 + if x == c then jt else jf, s')
  {
    var code := CompJeq(c, jt, jf);
    CodeAtIndex(p, at, code, 0);
    CodeAtIndex(p, at, code, 1);
    CodeAtIndex(p, at, code, 2);
    if Hi(x) == Hi(c) {
      s' := s.(a := Lo(x));
      assert RunL(p, d, at, s) == RunL(p, d, at + 1, s);
      SwapInLow(p, d, at + 1, s, x);
    } else {
      s' := s;
    }
  }

  /** BPF_LD+BPF_MEM 0 brings the low half into A. */
  lemma SwapInLow(p: seq<Instr>, d: Data, at: nat, s: Machine, x: u64)
    requires d.Valid() && Holding(s, x) && at + 1 < |p| && p[at] == Stmt(LD_MEM, 0)
    ensures RunL(p, d, at, s) == RunL(p, d, at + 1, s.(a := Lo(x)))
  {
  }

  /** The order test that ends a gt or ge block, on whole 64-bit words. */
  predicate Order(last: u16, x: u64, c: u64) { x > c || (last == JMP_JGE_K && x == c) }

  /** The high halves decide, or leave the decision to the last two instructions. */
  lemma HighDecides(p: seq<Instr>, d: Data, at: nat, s: Machine, x: u64, last: u16, c: u64, jt: u8, jf: u8)
    requires d.Valid() && s.a == Hi(x) && jt <= 1 && jf <= 1
    requires CodeAt(p, at, CompOrder(last, c, jt, jf)) && at + |CompOrder(last, c, jt, jf)| < |p|
    ensures var n := |CompOrder(last, c, jt, jf)|;
            && (Hi(x) > Hi(c) ==> RunL(p, d, at, s) == RunL(p, d, at + n + jt, s))
            && (Hi(x) < Hi(c) ==> RunL(p, d, at, s) == RunL(p, d, at + n + jf, s))
            && (Hi(x) == Hi(c) ==> RunL(p, d, at, s) == RunL(p, d, at + n - 2, s))
  {
    var code := CompOrder(last, c, jt, jf);
    CodeAtIndex(p, at, code, 0);
    if Hi(c) != 0 {
      CodeAtIndex(p, at, code, 1);
      if Hi(x) <= Hi(c) {
        assert RunL(p, d, at, s) == RunL(p, d, at + 1, s);
      }
    }
  }

  /** When the high halves agree, the last two instructions decide by the low ones. */
  lemma LowDecides(p: seq<Instr>, d: Data, at: nat, s: Machine, x: u64, last: u16, c: u64, jt: u8, jf: u8)
    requires d.Valid() && Holding(s, x) && jt <= 1 && jf <= 1 && Hi(x) == Hi(c)
    requires last == JMP_JGT_K || last == JMP_JGE_K
    requires CodeAt(p, at, CompOrder(last, c, jt, jf)) && at + |CompOrder(last, c, jt, jf)| < |p|
    ensures var n := |CompOrder(last, c, jt, jf)|;
            RunL(p, d, at + n - 2, s) == RunL(p, d, at + n + if Order(last, x, c) then jt else jf, s.(a := Lo(x)))
  {
    var code := CompOrder(last, c, jt, jf);
    var n := |code|;
    CodeAtIndex(p, at, code, n - 2);
    CodeAtIndex(p, at, code, n - 1);
    SwapInLow(p, d, at + n - 2, s, x);
    assert Order(last, x, c) == Order(last, Lo(x), Lo(c));
  }

  lemma OrderRuns(p: seq<Instr>, d: Data, at: nat, s: Machine, x: u64, last: u16, c: u64, jt: u8, jf: u8)
    returns (s': Machine)
    requires d.Valid() && Holding(s, x) && jt <= 1 && jf <= 1
    requires last == JMP_JGT_K || last == JMP_JGE_K
    requires CodeAt(p, at, CompOrder(last, c, jt, jf)) && at + |CompOrder(last, c, jt, jf)| < |p|
    ensures RunL(p, d, at, s) ==
            RunL(p, d, at + |CompOrder(last, c, jt, jf)| + if Order(last, x, c) then jt else jf, s')
  {
    hide RunL, CompOrder, CodeAt;
    HighDecides(p, d, at, s, x, last, c, jt, jf);
    if Hi(x) == Hi(c) {
      s' := s.(a := Lo(x));
      LowDecides(p, d, at, s, x, last, c, jt, jf);
    } else {
      s' := s;
      assert Order(last, x, c) == (Hi(x) > Hi(c));
    }
  }

  lemma OrderOpRuns(p: seq<Instr>, d: Data, at: nat, s: Machine, op: Op, x: u64, c: u64) returns (s': Machine)
    requires d.Valid() && Holding(s, x) && op in {LT, LE, GT, GE}
    requires CodeAt(p, at, Comp(op, c)) && at + |Comp(op, c)| < |p|
    ensures RunL(p, d, at, s) == RunL(p, d, at + |Comp(op, c)| + if Holds(op, x, c) then 1 else 0, s')
  {
    hide RunL, CodeAt;
    var last := if op in {LT, GE} then JMP_JGE_K else JMP_JGT_K;
    var jt := if op in {GT, GE} then SKIP else NEXT;
    var jf := if op in {GT, GE} then NEXT else SKIP;
    assert Comp(op, c) == CompOrder(last, c, jt, jf);
    s' := OrderRuns(p, d, at, s, x, last, c, jt, jf);
  }

  lemma JsetRuns(p: seq<Instr>, d: Data, at: nat, s: Machine, x: u64, m: u64, jt: u8, jf: u8) returns (s': Machine)
    requires d.Valid() && Holding(s, x) && jt <= 1 && jf <= 1
    requires CodeAt(p, at, CompJset(m, jt, jf)) && at + 4 <= |p|
    ensures RunL(p, d, at, s) == RunL(p, d, at + 3 + if AndNonZero(x, m, 64) then jt else jf, s')
  {
    var code := CompJset(m, jt, jf);
    CodeAtIndex(p, at, code, 0);
    CodeAtIndex(p, at, code, 1);
    CodeAtIndex(p, at, code, 2);
    AndByHalves(x, m);
    if AndNonZero(Hi(x), Hi(m), 32) {
      s' := s;
    } else {
      s' := s.(a := Lo(x));
      assert RunL(p, d, at, s) == RunL(p, d, at + 1, s);
      SwapInLow(p, d, at + 1, s, x);
    }
  }

  /** No bit of x lies outside the mask exactly when x & ~mask is zero. */
  lemma InclusionIsMaskedOut(x: u64, mask: u64)
    ensures Holds(IN, x, mask) <==> !AndNonZero(x, Not64(mask), 64)
  {
    forall i: nat | i < 64
      ensures Bit(Not64(mask), i) == !Bit(mask, i)
    {
      Not64Bits(mask, i);
    }
  }

  /** The chosen comparison skips exactly one instruction when the 64-bit test
      holds and none when it does not. */
  lemma CompRuns(p: seq<Instr>, d: Data, at: nat, s: Machine, op: Op, x: u64, c: u64) returns (s': Machine)
    requires d.Valid() && Holding(s, x)
    requires CodeAt(p, at, Comp(op, c)) && at + |Comp(op, c)| < |p|
    ensures RunL(p, d, at, s) == RunL(p, d, at + |Comp(op, c)| + if Holds(op, x, c) then 1 else 0, s')
  {
    hide RunL, CodeAt;
    match op
    case EQ => s' := JeqRuns(p, d, at, s, x, c, SKIP, NEXT);
    case NE => s' := JeqRuns(p, d, at, s, x, c, NEXT, SKIP);
    case LT => s' := OrderOpRuns(p, d, at, s, op, x, c);
    case LE => s' := OrderOpRuns(p, d, at, s, op, x, c);
    case GT => s' := OrderOpRuns(p, d, at, s, op, x, c);
    case GE => s' := OrderOpRuns(p, d, at, s, op, x, c);
    case SET => s' := JsetRuns(p, d, at, s, x, c, SKIP, NEXT);
    case IN =>
      InclusionIsMaskedOut(x, c);
      s' := JsetRuns(p, d, at, s, x, Not64(c), NEXT, SKIP);
  }

  /** The three parts of an atom's block, where they lie in the program. */
  lemma ArgCompParts(p: seq<Instr>, at: nat, op: Op, argidx: int, c: u64, id: u32)
    requires CodeAt(p, at, ArgComp(op, argidx, c, id))
    ensures CodeAt(p, at, LoadArg(argidx)) && CodeAt(p, at + 4, Comp(op, c))
    ensures p[at + 4 + |Comp(op, c)|] == JumpLbl(id) && |ArgComp(op, argidx, c, id)| == 4 + |Comp(op, c)| + 1
  {
    CodeAtSplit(p, at, LoadArg(argidx) + Comp(op, c), [JumpLbl(id)]);
    CodeAtSplit(p, at, LoadArg(argidx), Comp(op, c));
    CodeAtIndex(p, at + 4 + |Comp(op, c)|, [JumpLbl(id)], 0);
  }

  /** The whole block of one atom: fall past the block when the comparison holds,
      otherwise continue at the label the block jumps to. */
  lemma ArgCompRuns(p: seq<Instr>, d: Data, at: nat, s: Machine, op: Op, argidx: int, c: u64, id: u32, end: nat)
    returns (s': Machine)
    requires d.Valid() && ArgSlot(argidx) < 8 && UniqueFrom(p, 0)
    requires CodeAt(p, at, ArgComp(op, argidx, c, id))
    requires at + |ArgComp(op, argidx, c, id)| <= end < |p| && p[end] == Lbl(id)
    ensures Holds(op, d.Slot(ArgSlot(argidx)), c) ==>
              RunL(p, d, at, s) == RunL(p, d, at + |ArgComp(op, argidx, c, id)|, s')
    ensures !Holds(op, d.Slot(ArgSlot(argidx)), c) ==> RunL(p, d, at, s) == RunL(p, d, end, s')
  {
    hide RunL, Holds, ArgComp, Comp, LoadArg, CodeAt;
    var x, n := d.Slot(ArgSlot(argidx)), |Comp(op, c)|;
    ArgCompParts(p, at, op, argidx, c, id);
    LoadArgRuns(p, d, at, s, argidx);
    s' := CompRuns(p, d, at + 4, Loaded(s, x), op, x, c);
    if !Holds(op, x, c) {
      JumpReaches(p, d, at + 4 + n, s', id, end);
    }
  }

  /** The buffer size computed beforehand is the number of instructions written. */
  lemma ArgCompLenExact(op: Op, argidx: int, c: u64, id: u32)
    ensures |ArgComp(op, argidx, c, id)| == ArgCompLen(op, c)
  {
  }
}
